/** The Kafka consume loop of pkg/broker/kafka: fetch, retry, dead-letter, commit, over one partition
    whose group offset is a watermark. Crashes and rebalances may strike between any two steps. */
module KafkaConsumer {
  import opened Common

  datatype Config = Config(maxRetries: int, hasDLQ: bool)

  /** How a message was settled. */
  datatype Resolution = Handled | DeadLettered | Dropped

  datatype Phase =
    | Fetching
    | Attempting(offset: nat, attempt: nat)
    | Waiting(offset: nat, attempt: nat)
    | Routing(offset: nat)
    | Committing(offset: nat)

  /** `committed` is the group's watermark, `position` the next offset to fetch. `resolved` is
      history: it records how each message was settled, in whichever epoch. */
  datatype State = State(committed: nat, position: nat, phase: Phase, resolved: map<nat, Resolution>)

  datatype Event =
    | Fetch
    | HandlerOk
    | HandlerErr
    | WaitOver
    | WaitCancelled
    | DLQOk
    | DLQFail
    | CommitOk
    | CommitFail(applied: bool)
    | Restart       // crash or rebalance: fetching resumes at the watermark

  function Initial(): State { State(0, 0, Fetching, map[]) }

  function Attempts(cfg: Config): int { 1 + cfg.maxRetries }

  function Apply(cfg: Config, s: State, e: Event): Option<State> {
    match (s.phase, e)
    case (_, Restart) => Some(s.(position := s.committed, phase := Fetching))
    case (Fetching, Fetch) =>
      Some(s.(position := s.position + 1,
              phase := if Attempts(cfg) > 0 then Attempting(s.position, 0) else Committing(s.position)))
    case (Attempting(o, _), HandlerOk) => Some(s.(phase := Committing(o), resolved := s.resolved[o := Handled]))
    case (Attempting(o, i), HandlerErr) =>
      if i != Attempts(cfg) - 1 then Some(s.(phase := Waiting(o, i)))
      else if cfg.hasDLQ then Some(s.(phase := Routing(o)))
      else Some(s.(phase := Committing(o), resolved := s.resolved[o := Dropped]))
    case (Waiting(o, i), WaitOver) => Some(s.(phase := Attempting(o, i + 1)))
    case (Waiting(_, _), WaitCancelled) => Some(s.(phase := Fetching))
    case (Routing(o), DLQOk) => Some(s.(phase := Committing(o), resolved := s.resolved[o := DeadLettered]))
    case (Routing(_), DLQFail) => Some(s.(phase := Fetching))
    case (Committing(o), CommitOk) => Some(s.(phase := Fetching, committed := o + 1))
    case (Committing(o), CommitFail(applied)) =>
      Some(s.(phase := Fetching, committed := if applied then o + 1 else s.committed))
    case _ => None
  }

  /** The state after a run, or None when some event cannot happen where it stands. */
  function Exec(cfg: Config, s: State, es: seq<Event>): Option<State> {
    if es == [] then Some(s)
    else match Exec(cfg, s, es[..|es|-1])
      case None => None
      case Some(t) => Apply(cfg, t, es[|es|-1])
  }

  lemma ExecStep(cfg: Config, s: State, es: seq<Event>, e: Event)
    ensures Exec(cfg, s, es + [e]) == (match Exec(cfg, s, es) case None => None case Some(t) => Apply(cfg, t, e))
  {
    assert (es + [e])[..|es|] == es;
  }

  lemma {:induction false} ExecAppend(cfg: Config, s: State, es: seq<Event>, fs: seq<Event>)
    requires Exec(cfg, s, es).Some?
    ensures Exec(cfg, s, es + fs) == Exec(cfg, Exec(cfg, s, es).value, fs)
  {
    if fs == [] {
      assert es + fs == es;
    } else {
      var p := fs[..|fs|-1];
      ExecAppend(cfg, s, es, p);
      assert (es + fs)[..|es + fs| - 1] == es + p;
    }
  }

  // ---------------------------------------------------------------- the code

  /** What the environment decides while one message is processed. */
  datatype Script = Script(handler: nat -> bool, cancelled: nat -> bool, dlq: bool, commit: Event)

  ghost predicate ValidScript(sc: Script) {
    sc.commit.CommitOk? || sc.commit.CommitFail?
  }

  datatype Verdict = Succeeded | Exhausted | Cancelled

  /** The attempt after which no other is made, counting from attempt `i`. */
  function LastAttempt(cfg: Config, sc: Script, i: nat): nat
    requires i < Attempts(cfg)
    decreases Attempts(cfg) - i
  {
    if sc.handler(i) || i == Attempts(cfg) - 1 || sc.cancelled(i) then i else LastAttempt(cfg, sc, i + 1)
  }

  /** How a message is settled, if it is. */
  function Settlement(cfg: Config, sc: Script): Option<Resolution> {
    if Attempts(cfg) <= 0 then None
    else
      var last := LastAttempt(cfg, sc, 0);
      if sc.handler(last) then Some(Handled)
      else if last != Attempts(cfg) - 1 then None
      else if !cfg.hasDLQ then Some(Dropped)
      else if sc.dlq then Some(DeadLettered) else None
  }

  predicate MovesWatermark(e: Event) {
    e.CommitOk? || (e.CommitFail? && e.applied)
  }

  /** The state once a fetched message is done with: its offset is committed if it was settled or never tried. */
  function Processed(cfg: Config, s: State, offset: nat, sc: Script): State {
    var settled := Settlement(cfg, sc);
    State(if (settled.Some? || Attempts(cfg) <= 0) && MovesWatermark(sc.commit) then offset + 1 else s.committed,
          s.position, Fetching, if settled.Some? then s.resolved[offset := settled.value] else s.resolved)
  }

  /** The handler is called until it succeeds, the wait after a failure is cancelled, or no attempt is left. */
  ghost predicate Tried(cfg: Config, sc: Script, calls: nat) {
    if cfg.maxRetries < 0 then calls == 0
    else
      && 1 <= calls <= 1 + cfg.maxRetries
      && (forall i :: 0 <= i < calls - 1 ==> !sc.handler(i) && !sc.cancelled(i))
      && (sc.handler(calls - 1) || calls == 1 + cfg.maxRetries || sc.cancelled(calls - 1))
  }

  /** All attempts were made, and all failed. */
  predicate GaveOut(cfg: Config, sc: Script, calls: nat) {
    calls > 0 && calls == 1 + cfg.maxRetries && !sc.handler(calls - 1)
  }

  /** The code gets to the commit: no attempt is made at all, the handler has succeeded, or all attempts have failed
      and the dead-letter publish, where there is one, has not. */
  predicate Passes(cfg: Config, sc: Script, calls: nat) {
    calls == 0 || sc.handler(calls - 1) || (GaveOut(cfg, sc, calls) && (!cfg.hasDLQ || sc.dlq))
  }

  /** What becomes of the message: handled, dead-lettered, dropped, or none of these. */
  ghost predicate SettledAs(cfg: Config, sc: Script, calls: nat, offset: nat, before: map<nat, Resolution>,
                            after: map<nat, Resolution>) {
    if calls > 0 && sc.handler(calls - 1) then after == before[offset := Handled]
    else if GaveOut(cfg, sc, calls) && !cfg.hasDLQ then after == before[offset := Dropped]
    else if GaveOut(cfg, sc, calls) && sc.dlq then after == before[offset := DeadLettered]
    else after == before
  }

  function Consumed(cfg: Config, s: State, scripts: seq<Script>): State {
    if scripts == [] then s
    else
      var t := Consumed(cfg, s, scripts[..|scripts|-1]);
      Processed(cfg, t.(position := t.position + 1), t.position, scripts[|scripts|-1])
  }

  /** How many attempts the code makes. */
  function CallsMade(cfg: Config, sc: Script): nat {
    if Attempts(cfg) <= 0 then 0 else LastAttempt(cfg, sc, 0) + 1
  }

  lemma {:induction false} LastAttemptExact(cfg: Config, sc: Script, i: nat)
    requires i < Attempts(cfg)
    ensures i <= LastAttempt(cfg, sc, i) < Attempts(cfg)
    ensures forall j :: i <= j < LastAttempt(cfg, sc, i) ==> !sc.handler(j) && !sc.cancelled(j)
    ensures var last := LastAttempt(cfg, sc, i); sc.handler(last) || last == cfg.maxRetries || sc.cancelled(last)
    decreases Attempts(cfg) - i
  {
    if !(sc.handler(i) || i == Attempts(cfg) - 1 || sc.cancelled(i)) { LastAttemptExact(cfg, sc, i + 1); }
  }

  lemma ProcessedExact(cfg: Config, s: State, offset: nat, sc: Script)
    requires ValidScript(sc)
    ensures var t, calls := Processed(cfg, s, offset, sc), CallsMade(cfg, sc);
            && Tried(cfg, sc, calls) && t.position == s.position && t.phase.Fetching?
            && t.committed == (if Commits(cfg, sc, calls) then offset + 1 else s.committed)
            && SettledAs(cfg, sc, calls, offset, s.resolved, t.resolved)
  {
    if Attempts(cfg) > 0 { LastAttemptExact(cfg, sc, 0); }
  }

  /** The commit is reached, and works. */
  predicate Commits(cfg: Config, sc: Script, calls: nat)
    requires ValidScript(sc)
  {
    Passes(cfg, sc, calls) && (sc.commit.CommitOk? || sc.commit.applied)
  }

  ghost predicate AllValid(scripts: seq<Script>) { forall i :: 0 <= i < |scripts| ==> ValidScript(scripts[i]) }

  ghost predicate CommitsAt(cfg: Config, scripts: seq<Script>, i: nat)
    requires i < |scripts| && AllValid(scripts)
  {
    Commits(cfg, scripts[i], CallsMade(cfg, scripts[i]))
  }

  /** Script `i` is the last whose commit is reached and works. */
  ghost predicate LastCommit(cfg: Config, scripts: seq<Script>, i: nat)
    requires AllValid(scripts)
  {
    i < |scripts| && CommitsAt(cfg, scripts, i) && forall j :: i < j < |scripts| ==> !CommitsAt(cfg, scripts, j)
  }

  lemma LastCommitMore(cfg: Config, scripts: seq<Script>, i: nat)
    requires scripts != [] && AllValid(scripts)
    ensures var n := |scripts| - 1;
            if CommitsAt(cfg, scripts, n) then LastCommit(cfg, scripts, i) <==> i == n
            else LastCommit(cfg, scripts, i) <==> LastCommit(cfg, scripts[..n], i)
  {
    var n := |scripts| - 1;
    var init := scripts[..n];
    assert forall j: nat :: j < n ==> (CommitsAt(cfg, init, j) <==> CommitsAt(cfg, scripts, j));
    if LastCommit(cfg, init, i) && !CommitsAt(cfg, scripts, n) {
      forall j | i < j < |scripts| ensures !CommitsAt(cfg, scripts, j) {
        if j < n { assert !CommitsAt(cfg, init, j); }
      }
    }
  }

  /** Message after message, the offsets taken one by one from the position on: the watermark is behind the last
      message whose commit is reached and works. */
  lemma {:induction false} ConsumedExact(cfg: Config, s: State, scripts: seq<Script>)
    requires AllValid(scripts) && s.phase.Fetching?
    ensures var t := Consumed(cfg, s, scripts);
            && t.phase.Fetching? && t.position == s.position + |scripts|
            && (forall i: nat :: LastCommit(cfg, scripts, i) ==> t.committed == s.position + i + 1)
            && ((forall i: nat :: !LastCommit(cfg, scripts, i)) ==> t.committed == s.committed)
  {
    if scripts != [] {
      var n := |scripts| - 1;
      ConsumedExact(cfg, s, scripts[..n]);
      var u := Consumed(cfg, s, scripts[..n]);
      ProcessedExact(cfg, u.(position := u.position + 1), u.position, scripts[n]);
      forall i: nat
        ensures LastCommit(cfg, scripts, i)
           <==> if CommitsAt(cfg, scripts, n) then i == n else LastCommit(cfg, scripts[..n], i)
      {
        LastCommitMore(cfg, scripts, i);
      }
      assert CommitsAt(cfg, scripts, n) ==> LastCommit(cfg, scripts, n);
    }
  }

  lemma {:induction false} ConsumedSettles(cfg: Config, s: State, scripts: seq<Script>, i: nat)
    requires AllValid(scripts) && i < |scripts|
    ensures var before, after := Consumed(cfg, s, scripts[..i]).resolved, Consumed(cfg, s, scripts[..i+1]).resolved;
            SettledAs(cfg, scripts[i], CallsMade(cfg, scripts[i]), s.position + i, before, after)
  {
    var u := Consumed(cfg, s, scripts[..i]);
    assert scripts[..i+1][..i] == scripts[..i];
    ConsumedPosition(cfg, s, scripts[..i]);
    ProcessedExact(cfg, u.(position := u.position + 1), u.position, scripts[i]);
  }

  lemma {:induction false} ConsumedPosition(cfg: Config, s: State, scripts: seq<Script>)
    ensures Consumed(cfg, s, scripts).position == s.position + |scripts|
  {
    if scripts != [] { ConsumedPosition(cfg, s, scripts[..|scripts|-1]); }
  }

  class Reader {
    var committed: nat
    var position: nat

    constructor (watermark: nat)
      ensures committed == position == watermark
    {
      committed, position := watermark, watermark;
    }

    method FetchMessage() returns (offset: nat)
      modifies this
      ensures offset == old(position) && position == offset + 1 && committed == old(committed)
    {
      offset := position;
      position := position + 1;
    }

    /** Commits are cumulative: everything up to `offset` counts as consumed. */
    method CommitMessages(offset: nat, outcome: Event)
      modifies this
      ensures position == old(position)
      ensures committed == if outcome.CommitOk? || (outcome.CommitFail? && outcome.applied) then offset + 1
                           else old(committed)
    {
      if MovesWatermark(outcome) {
        committed := offset + 1;
      }
    }
  }

  /** The retry loop. `calls` counts handler invocations. */
  method InvokeWithRetries(cfg: Config, sc: Script, ghost o: nat, ghost s: State)
    returns (verdict: Verdict, calls: nat, ghost trace: seq<Event>)
    requires s.phase == Attempting(o, 0) && Attempts(cfg) > 0
    ensures 1 <= calls <= Attempts(cfg) && calls == LastAttempt(cfg, sc, 0) + 1
    ensures forall i :: 0 <= i < calls - 1 ==> !sc.handler(i) && !sc.cancelled(i)
    ensures verdict.Succeeded? <==> sc.handler(calls - 1)
    ensures verdict.Exhausted? <==> !sc.handler(calls - 1) && calls == Attempts(cfg)
    ensures verdict.Cancelled? ==> sc.cancelled(calls - 1)
    ensures HandlerCalls(trace) == calls
    ensures Exec(cfg, s, trace) == Some(match verdict
              case Succeeded => s.(phase := Committing(o), resolved := s.resolved[o := Handled])
              case Cancelled => s.(phase := Fetching)
              case Exhausted =>
                if cfg.hasDLQ then s.(phase := Routing(o))
                else s.(phase := Committing(o), resolved := s.resolved[o := Dropped]))
  {
    trace, calls := [], 0;
    while true
      invariant 0 <= calls < Attempts(cfg)
      invariant forall i :: 0 <= i < calls ==> !sc.handler(i) && !sc.cancelled(i)
      invariant LastAttempt(cfg, sc, 0) == LastAttempt(cfg, sc, calls) && HandlerCalls(trace) == calls
      invariant Exec(cfg, s, trace) == Some(s.(phase := Attempting(o, calls)))
      decreases Attempts(cfg) - calls
    {
      var i := calls;
      calls := calls + 1;
      if sc.handler(i) {
        trace := Log(cfg, s, trace, HandlerOk);
        return Succeeded, calls, trace;
      }
      trace := Log(cfg, s, trace, HandlerErr);
      if i == Attempts(cfg) - 1 {
        return Exhausted, calls, trace;
      }
      if sc.cancelled(i) {
        trace := Log(cfg, s, trace, WaitCancelled);
        return Cancelled, calls, trace;
      }
      trace := Log(cfg, s, trace, WaitOver);
    }
  }

  /** The handler calls of a run. */
  function HandlerCalls(trace: seq<Event>): nat {
    if trace == [] then 0
    else
      var e := trace[|trace|-1];
      HandlerCalls(trace[..|trace|-1]) + if e.HandlerOk? || e.HandlerErr? then 1 else 0
  }

  /** The run so far and one more event. */
  lemma Log(cfg: Config, s: State, trace: seq<Event>, e: Event) returns (longer: seq<Event>)
    requires Exec(cfg, s, trace).Some?
    ensures Exec(cfg, s, longer) == Apply(cfg, Exec(cfg, s, trace).value, e)
    ensures HandlerCalls(longer) == HandlerCalls(trace) + if e.HandlerOk? || e.HandlerErr? then 1 else 0
  {
    ExecStep(cfg, s, trace, e);
    longer := trace + [e];
    assert longer[..|trace|] == trace;
  }

  /** One fetched message, from the first attempt to the commit. A negative retry count means no
      attempt at all: the offset is committed without the handler having run. */
  method ProcessMessage(cfg: Config, reader: Reader, offset: nat, sc: Script, ghost s: State)
    returns (calls: nat, published: bool, ghost trace: seq<Event>, ghost t: State)
    requires ValidScript(sc)
    requires s.committed == reader.committed && s.position == reader.position
    requires s.phase == if Attempts(cfg) > 0 then Attempting(offset, 0) else Committing(offset)
    modifies reader
    ensures Exec(cfg, s, trace) == Some(t) && t == Processed(cfg, s, offset, sc)
    ensures t.committed == reader.committed && t.position == reader.position == old(reader.position)
    ensures calls == if Attempts(cfg) > 0 then LastAttempt(cfg, sc, 0) + 1 else 0
    ensures cfg.maxRetries >= 0 ==> 1 <= calls <= 1 + cfg.maxRetries
    ensures published <==> cfg.hasDLQ && calls == 1 + cfg.maxRetries && calls > 0 && !sc.handler(calls - 1)
    ensures Tried(cfg, sc, calls) && HandlerCalls(trace) == calls
    ensures reader.committed == if Commits(cfg, sc, calls) then offset + 1 else old(reader.committed)
    ensures SettledAs(cfg, sc, calls, offset, s.resolved, t.resolved)
  {
    calls, published, trace := 0, false, [];
    if Attempts(cfg) > 0 {
      var verdict;
      verdict, calls, trace := InvokeWithRetries(cfg, sc, offset, s);
      if verdict.Cancelled? {
        t := Exec(cfg, s, trace).value;
        return;
      }
      if verdict.Exhausted? && cfg.hasDLQ {
        published := true;
        trace := Log(cfg, s, trace, if sc.dlq then DLQOk else DLQFail);
        if !sc.dlq {
          t := Exec(cfg, s, trace).value;
          return;
        }
      }
    }
    reader.CommitMessages(offset, sc.commit);
    trace := Log(cfg, s, trace, sc.commit);
    t := Exec(cfg, s, trace).value;
  }

  /** The loop, until fetching fails: one script for each message fetched before that. */
  method ConsumeLoop(cfg: Config, reader: Reader, scripts: seq<Script>, ghost s: State)
    returns (ghost trace: seq<Event>, ghost t: State)
    requires forall i :: 0 <= i < |scripts| ==> ValidScript(scripts[i])
    requires s.phase == Fetching && s.committed == reader.committed && s.position == reader.position
    modifies reader
    ensures Exec(cfg, s, trace) == Some(t) && t == Consumed(cfg, s, scripts)
    ensures t.committed == reader.committed && t.position == reader.position == old(reader.position) + |scripts|
  {
    trace, t := [], s;
    for n := 0 to |scripts|
      invariant Exec(cfg, s, trace) == Some(t) && t.phase == Fetching && t == Consumed(cfg, s, scripts[..n])
      invariant t.committed == reader.committed && t.position == reader.position == old(reader.position) + n
    {
      var offset := reader.FetchMessage();
      trace := Log(cfg, s, trace, Fetch);
      t := Exec(cfg, s, trace).value;
      ghost var before, step := trace, [];
      var calls, published;
      calls, published, step, t := ProcessMessage(cfg, reader, offset, scripts[n], t);
      ExecAppend(cfg, s, before, step);
      trace := before + step;
      assert scripts[..n+1][..n] == scripts[..n];
    }
    assert scripts[..|scripts|] == scripts;
  }

  // ---------------------------------------------------------------- middleware

  type Handler<!M, +R> = M -> R
  type Middleware<!M, !R> = Handler<M, R> -> Handler<M, R>

  /** The first middleware is outermost. */
  function Wrapped<M, R>(h: Handler<M, R>, mws: seq<Middleware<M, R>>): Handler<M, R> {
    if mws == [] then h else mws[0](Wrapped(h, mws[1..]))
  }

  /** Middleware `tag` notes when it is entered and when it is left. */
  datatype Note = Entered(tag: nat) | Reached | Left(tag: nat)

  /** What is noted by `n` middlewares around a handler, the outermost with tag `from`. */
  function Trail(from: nat, n: nat): seq<Note>
    decreases n
  {
    if n == 0 then [Reached] else [Entered(from)] + Trail(from + 1, n - 1) + [Left(from)]
  }

  lemma {:induction false} TrailAt(from: nat, n: nat, k: nat)
    requires k <= 2 * n
    ensures |Trail(from, n)| == 2 * n + 1
    ensures Trail(from, n)[k] == if k < n then Entered(from + k) else if k == n then Reached else Left(from + 2 * n - k)
    decreases n
  {
    if n > 0 {
      if 0 < k < 2 * n { TrailAt(from + 1, n - 1, k - 1); } else { TrailAt(from + 1, n - 1, 0); }
    }
  }

  lemma {:induction false} WrappedTrail<M>(handler: Handler<M, seq<Note>>, mws: seq<Middleware<M, seq<Note>>>,
                                           from: nat, m: M)
    requires handler(m) == [Reached]
    requires forall i: nat, h: Handler<M, seq<Note>> :: i < |mws| ==>
               mws[i](h)(m) == [Entered(from + i)] + h(m) + [Left(from + i)]
    ensures Wrapped(handler, mws)(m) == Trail(from, |mws|)
  {
    if mws != [] {
      var rest := mws[1..];
      forall i: nat, h: Handler<M, seq<Note>> | i < |rest|
        ensures rest[i](h)(m) == [Entered(from + 1 + i)] + h(m) + [Left(from + 1 + i)]
      {
        assert rest[i] == mws[i+1] && from + (i + 1) == from + 1 + i;
      }
      WrappedTrail(handler, rest, from + 1, m);
    }
  }

  /** A message enters the middlewares in their order, reaches the handler, and leaves them in the reverse order. */
  lemma WrappedInOrder<M>(handler: Handler<M, seq<Note>>, mws: seq<Middleware<M, seq<Note>>>, m: M)
    requires handler(m) == [Reached]
    requires forall i: nat, h: Handler<M, seq<Note>> :: i < |mws| ==>
               mws[i](h)(m) == [Entered(i)] + h(m) + [Left(i)]
    ensures var notes, n := Wrapped(handler, mws)(m), |mws|;
            && |notes| == 2 * n + 1 && notes[n] == Reached
            && (forall i :: 0 <= i < n ==> notes[i] == Entered(i))
            && (forall k :: n < k <= 2 * n ==> notes[k] == Left(2 * n - k))
  {
    WrappedTrail(handler, mws, 0, m);
    forall k: nat | k <= 2 * |mws|
      ensures |Trail(0, |mws|)| == 2 * |mws| + 1
      ensures Trail(0, |mws|)[k] == if k < |mws| then Entered(k) else if k == |mws| then Reached
        else Left(2 * |mws| - k)
    {
      TrailAt(0, |mws|, k);
    }
    TrailAt(0, |mws|, 0);
  }

  method ApplyMiddleware<M, R>(handler: Handler<M, R>, mws: seq<Middleware<M, R>>) returns (h: Handler<M, R>)
    ensures h == Wrapped(handler, mws)
  {
    h := handler;
    var i := |mws|;
    while i > 0
      invariant 0 <= i <= |mws|
      invariant h == Wrapped(handler, mws[i..])
    {
      i := i - 1;
      h := mws[i](h);
    }
  }
}
