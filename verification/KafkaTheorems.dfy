/** Watermark safety of the Kafka consume loop, over every run with crashes at any step. */
module KafkaTheorems {
  import opened Common
  import opened KafkaConsumer

  function Run(cfg: Config, es: seq<Event>): Option<State> { Exec(cfg, Initial(), es) }

  /** Offsets below the watermark that were never settled. */
  function Lost(s: State): set<nat> {
    set o | 0 <= o < s.committed && o !in s.resolved
  }

  /** The offset a step walks away from without settling it: the dead-letter publish failed, the
      retry wait was cancelled, or the retry count is negative and no attempt is made at all. */
  function GivenUp(cfg: Config, s: State, e: Event): set<nat> {
    match (s.phase, e)
    case (Routing(o), DLQFail) => {o} - s.resolved.Keys
    case (Waiting(o, _), WaitCancelled) => {o} - s.resolved.Keys
    case (Fetching, Fetch) => if cfg.maxRetries < 0 then {s.position} - s.resolved.Keys else {}
    case _ => {}
  }

  /** Offsets given up since the last restart. */
  function Skipped(cfg: Config, es: seq<Event>): set<nat> {
    if es == [] then {}
    else
      var p, e := es[..|es|-1], es[|es|-1];
      if e.Restart? then {}
      else Skipped(cfg, p) + (match Run(cfg, p) case Some(s) => GivenUp(cfg, s, e) case None => {})
  }

  /** Offsets given up and then overtaken by a commit with no restart in between. */
  function Overtaken(cfg: Config, es: seq<Event>): set<nat> {
    if es == [] then {}
    else
      var p, e := es[..|es|-1], es[|es|-1];
      Overtaken(cfg, p) + if MovesWatermark(e) then Skipped(cfg, p) else {}
  }

  // ---------------------------------------------------------------- the invariant

  ghost predicate PhaseInBounds(cfg: Config, s: State) {
    && s.committed <= s.position
    && (!s.phase.Fetching? ==> s.position == s.phase.offset + 1 && s.committed <= s.phase.offset)
    && (s.phase.Attempting? ==> s.phase.attempt < Attempts(cfg))
    && (s.phase.Waiting? ==> s.phase.attempt < Attempts(cfg) - 1)
    && (s.phase.Committing? && cfg.maxRetries >= 0 ==> s.phase.offset in s.resolved)
  }

  /** Every fetched offset is settled, given up in this epoch, overtaken earlier, or in flight. */
  ghost predicate Accounted(cfg: Config, es: seq<Event>, s: State) {
    forall o: nat :: s.committed <= o < s.position ==>
      o in s.resolved || o in Skipped(cfg, es) || (!s.phase.Fetching? && !s.phase.Committing? && o == s.phase.offset)
  }

  ghost predicate SkippedInBounds(cfg: Config, es: seq<Event>, s: State) {
    forall o :: o in Skipped(cfg, es) ==>
      o < s.position && o !in s.resolved
      && (s.committed <= o || o in Overtaken(cfg, es))
      && (!s.phase.Fetching? && o == s.phase.offset ==> s.phase.Committing? && cfg.maxRetries < 0)
  }

  lemma {:induction false} InBounds(cfg: Config, es: seq<Event>)
    requires Run(cfg, es).Some?
    ensures PhaseInBounds(cfg, Run(cfg, es).value)
  {
    if es != [] { InBounds(cfg, es[..|es|-1]); }
  }

  lemma {:induction false} SkipsInBounds(cfg: Config, es: seq<Event>)
    requires Run(cfg, es).Some?
    ensures SkippedInBounds(cfg, es, Run(cfg, es).value)
  {
    if es != [] {
      var p := es[..|es|-1];
      SkipsInBounds(cfg, p);
      InBounds(cfg, p);
    }
  }

  lemma {:induction false} AllAccounted(cfg: Config, es: seq<Event>)
    requires Run(cfg, es).Some?
    ensures Accounted(cfg, es, Run(cfg, es).value)
  {
    if es != [] {
      var p := es[..|es|-1];
      AllAccounted(cfg, p);
      SkipsInBounds(cfg, p);
      InBounds(cfg, p);
    }
  }

  // ---------------------------------------------------------------- watermark safety, exactly

  /** The offsets lost below the watermark are exactly those given up and then overtaken by a commit
      before any restart. */
  lemma {:induction false} LossExactly(cfg: Config, es: seq<Event>)
    requires Run(cfg, es).Some?
    ensures Lost(Run(cfg, es).value) == Overtaken(cfg, es)
  {
    if es != [] {
      var p := es[..|es|-1];
      LossExactly(cfg, p);
      InBounds(cfg, p);
      SkipsInBounds(cfg, p);
      AllAccounted(cfg, p);
      LossStep(cfg, es);
    }
  }

  lemma LossStep(cfg: Config, es: seq<Event>)
    requires es != [] && Run(cfg, es).Some?
    requires var p := es[..|es|-1];
             var s := Run(cfg, p).value;
             Lost(s) == Overtaken(cfg, p) && PhaseInBounds(cfg, s) && SkippedInBounds(cfg, p, s) && Accounted(cfg, p, s)
    ensures Lost(Run(cfg, es).value) == Overtaken(cfg, es)
  {
    var p, e := es[..|es|-1], es[|es|-1];
    var s, t := Run(cfg, p).value, Run(cfg, es).value;
    forall o: nat ensures o in Lost(t) <==> o in Overtaken(cfg, es) {
      if MovesWatermark(e) {
        assert t.committed == s.position;
      } else {
        assert t.committed == s.committed;
      }
    }
  }

  /** The loop's context, which every wait, fetch and commit shares, is known to be done: a wait was cancelled
      and the consumer has not restarted since. */
  function ContextDone(es: seq<Event>): bool {
    if es == [] then false
    else
      match es[|es|-1]
      case WaitCancelled => true
      case Restart => false
      case _ => ContextDone(es[..|es|-1])
  }

  /** A fetch hands out a message although the context is done, as a client that finds one ready may do. */
  predicate FetchesWhenDone(es: seq<Event>) {
    exists i :: 0 <= i < |es| && es[i] == Fetch && ContextDone(es[..i])
  }

  lemma FetchesWhenDoneBefore(es: seq<Event>)
    requires es != [] && !FetchesWhenDone(es)
    ensures !FetchesWhenDone(es[..|es|-1])
    ensures es[|es|-1] == Fetch ==> !ContextDone(es[..|es|-1])
  {
    var p := es[..|es|-1];
    assert forall i :: 0 <= i < |p| ==> p[..i] == es[..i] && p[i] == es[i];
  }

  lemma {:induction false} NotDoneWithoutCancel(es: seq<Event>)
    requires WaitCancelled !in es
    ensures !ContextDone(es) && !FetchesWhenDone(es)
  {
    forall i | 0 <= i <= |es| ensures !ContextDone(es[..i]) { NotDone(es[..i]); }
    assert es[..|es|] == es;
  }

  lemma {:induction false} NotDone(es: seq<Event>)
    requires WaitCancelled !in es
    ensures !ContextDone(es)
  {
    if es != [] { NotDone(es[..|es|-1]); }
  }

  /** No message is lost when retries are not negative, no dead-letter publish fails and nothing is fetched once
      a cancelled wait has shown the context to be done: every offset below the watermark was handled,
      dead-lettered or dropped. */
  lemma WatermarkSafe(cfg: Config, es: seq<Event>)
    requires cfg.maxRetries >= 0 && DLQFail !in es && !FetchesWhenDone(es)
    requires Run(cfg, es).Some?
    ensures forall o: nat :: o < Run(cfg, es).value.committed ==> o in Run(cfg, es).value.resolved
  {
    LossExactly(cfg, es);
    NothingOvertaken(cfg, es);
    var s := Run(cfg, es).value;
    forall o: nat | o < s.committed ensures o in s.resolved { assert o !in Lost(s); }
  }

  lemma {:induction false} NothingOvertaken(cfg: Config, es: seq<Event>)
    requires cfg.maxRetries >= 0 && DLQFail !in es && !FetchesWhenDone(es)
    requires Run(cfg, es).Some?
    ensures Overtaken(cfg, es) == {}
    ensures if ContextDone(es) then Run(cfg, es).value.phase.Fetching? else Skipped(cfg, es) == {}
  {
    if es != [] {
      FetchesWhenDoneBefore(es);
      NothingOvertaken(cfg, es[..|es|-1]);
    }
  }

  /** A lost message stays lost: however the run goes on, restarts included, it is never fetched again. */
  lemma {:induction false} LostForever(cfg: Config, es: seq<Event>, more: seq<Event>, o: nat)
    requires Run(cfg, es).Some? && o in Lost(Run(cfg, es).value) && Run(cfg, es + more).Some?
    ensures o in Lost(Run(cfg, es + more).value) && o < Run(cfg, es + more).value.position
  {
    InBounds(cfg, es + more);
    if more == [] {
      assert es + more == es;
    } else {
      var p := more[..|more|-1];
      assert (es + more)[..|es + more| - 1] == es + p;
      LostForever(cfg, es, p, o);
      InBounds(cfg, es + p);
    }
  }

  /** A message is dropped only where no dead-letter queue is configured, dead-lettered only where one is. */
  lemma {:induction false} SettledAsConfigured(cfg: Config, es: seq<Event>, o: nat)
    requires Run(cfg, es).Some? && o in Run(cfg, es).value.resolved
    ensures Run(cfg, es).value.resolved[o] == (if cfg.hasDLQ then DeadLettered else Dropped)
      || Run(cfg, es).value.resolved[o] == Handled
  {
    RoutesOnlyWithDLQ(cfg, es);
    if es != [] {
      var p := es[..|es|-1];
      RoutesOnlyWithDLQ(cfg, p);
      if o in Run(cfg, p).value.resolved { SettledAsConfigured(cfg, p, o); }
    }
  }

  lemma {:induction false} RoutesOnlyWithDLQ(cfg: Config, es: seq<Event>)
    requires Run(cfg, es).Some?
    ensures Run(cfg, es).value.phase.Routing? ==> cfg.hasDLQ
  {
    if es != [] { RoutesOnlyWithDLQ(cfg, es[..|es|-1]); }
  }

  // ---------------------------------------------------------------- each hypothesis is needed

  lemma Next(cfg: Config, es: seq<Event>, e: Event)
    requires Run(cfg, es).Some? && Apply(cfg, Run(cfg, es).value, e).Some?
    ensures Run(cfg, es + [e]) == Apply(cfg, Run(cfg, es).value, e)
  {
    ExecStep(cfg, Initial(), es, e);
  }

  /** Message 0 is given up by the steps `giveUp`; message 1 is then handled and committed. */
  lemma OvertakenBySuccessor(cfg: Config, giveUp: seq<Event>)
    requires Run(cfg, giveUp) == Some(State(0, 1, Fetching, map[])) && cfg.maxRetries >= 0
    ensures var es := giveUp + [Fetch] + [HandlerOk] + [CommitOk];
            Run(cfg, es).Some? && Run(cfg, es).value.committed == 2 && Lost(Run(cfg, es).value) == {0}
  {
    Next(cfg, giveUp, Fetch);
    Next(cfg, giveUp + [Fetch], HandlerOk);
    Next(cfg, giveUp + [Fetch] + [HandlerOk], CommitOk);
  }

  /** Message 0 fails `n` times; the retries that are left would go on. */
  lemma {:induction false} FirstAttemptsFail(cfg: Config, n: nat) returns (es: seq<Event>)
    requires n <= cfg.maxRetries
    ensures Run(cfg, es) == Some(State(0, 1, Attempting(0, n), map[]))
    ensures DLQFail !in es && WaitCancelled !in es
  {
    if n == 0 {
      Next(cfg, [], Fetch);
      es := [] + [Fetch];
    } else {
      es := FirstAttemptsFail(cfg, n - 1);
      Next(cfg, es, HandlerErr);
      Next(cfg, es + [HandlerErr], WaitOver);
      es := es + [HandlerErr] + [WaitOver];
    }
  }

  /** For every configuration with a dead-letter queue: all attempts on message 0 fail, its dead-letter publish
      fails and its offset is "not committed to prevent data loss"; message 1 is handled and committed, and the
      watermark has passed message 0. */
  lemma DLQFailureLosesMessage(cfg: Config) returns (es: seq<Event>)
    requires cfg.hasDLQ && cfg.maxRetries >= 0
    ensures WaitCancelled !in es
    ensures var s := Run(cfg, es); s.Some? && s.value.committed == 2 && Lost(s.value) == {0}
  {
    es := FirstAttemptsFail(cfg, cfg.maxRetries);
    Next(cfg, es, HandlerErr);
    Next(cfg, es + [HandlerErr], DLQFail);
    es := es + [HandlerErr] + [DLQFail];
    OvertakenBySuccessor(cfg, es);
    es := es + [Fetch] + [HandlerOk] + [CommitOk];
  }

  /** For every configuration with retries: the first wait is cancelled. The context is done then, so the run
      also needs the client to hand out and commit message 1 all the same. */
  lemma CancelledWaitLosesMessage(cfg: Config) returns (es: seq<Event>)
    requires cfg.maxRetries > 0
    ensures DLQFail !in es && FetchesWhenDone(es)
    ensures var s := Run(cfg, es); s.Some? && s.value.committed == 2 && Lost(s.value) == {0}
  {
    es := FirstAttemptsFail(cfg, 0);
    Next(cfg, es, HandlerErr);
    Next(cfg, es + [HandlerErr], WaitCancelled);
    es := es + [HandlerErr] + [WaitCancelled];
    OvertakenBySuccessor(cfg, es);
    ghost var n := |es|;
    es := es + [Fetch] + [HandlerOk] + [CommitOk];
    assert es[n] == Fetch && es[n-1] == WaitCancelled && es[..n][n-1] == WaitCancelled;
  }

  lemma NegativeRetriesLoseMessage(cfg: Config) returns (es: seq<Event>)
    requires cfg.maxRetries < 0
    ensures DLQFail !in es && WaitCancelled !in es
    ensures var s := Run(cfg, es); s.Some? && s.value.committed == 1 && Lost(s.value) == {0}
  {
    Next(cfg, [], Fetch);
    Next(cfg, [] + [Fetch], CommitOk);
    es := [] + [Fetch] + [CommitOk];
  }

  // ---------------------------------------------------------------- which configurations lose nothing

  lemma {:induction false} EventsNeed(cfg: Config, es: seq<Event>)
    requires Run(cfg, es).Some?
    ensures DLQFail in es ==> cfg.hasDLQ
    ensures WaitCancelled in es ==> cfg.maxRetries > 0
  {
    if es != [] {
      var p := es[..|es|-1];
      assert p + [es[|es|-1]] == es;
      EventsNeed(cfg, p);
      RoutesOnlyWithDLQ(cfg, p);
      InBounds(cfg, p);
    }
  }

  ghost predicate NeverLoses(cfg: Config) {
    forall es: seq<Event> :: Run(cfg, es).Some? ==> Lost(Run(cfg, es).value) == {}
  }

  /** The same, for a client that hands out no message on a context that is done. */
  ghost predicate NeverLosesOnLiveContext(cfg: Config) {
    forall es: seq<Event> :: Run(cfg, es).Some? && !FetchesWhenDone(es) ==> Lost(Run(cfg, es).value) == {}
  }

  lemma NothingLost(cfg: Config, es: seq<Event>)
    requires cfg.maxRetries >= 0 && !cfg.hasDLQ && Run(cfg, es).Some? && !FetchesWhenDone(es)
    ensures Lost(Run(cfg, es).value) == {}
  {
    EventsNeed(cfg, es);
    WatermarkSafe(cfg, es);
  }

  /** A configuration loses no message in any run exactly when it has no dead-letter queue and no retries. */
  lemma NeverLosesIff(cfg: Config)
    ensures NeverLoses(cfg) <==> cfg.maxRetries == 0 && !cfg.hasDLQ
  {
    if cfg.maxRetries == 0 && !cfg.hasDLQ {
      forall es: seq<Event> | Run(cfg, es).Some? ensures Lost(Run(cfg, es).value) == {} {
        EventsNeed(cfg, es);
        NotDoneWithoutCancel(es);
        NothingLost(cfg, es);
      }
    } else {
      var es;
      if cfg.maxRetries < 0 {
        es := NegativeRetriesLoseMessage(cfg);
      } else if cfg.hasDLQ {
        es := DLQFailureLosesMessage(cfg);
      } else {
        es := CancelledWaitLosesMessage(cfg);
      }
      assert 0 in Lost(Run(cfg, es).value);
    }
  }

  /** With such a client it loses none exactly when it has no dead-letter queue and a retry count that is not
      negative: having a dead-letter queue is what costs messages. */
  lemma NeverLosesOnLiveContextIff(cfg: Config)
    ensures NeverLosesOnLiveContext(cfg) <==> cfg.maxRetries >= 0 && !cfg.hasDLQ
  {
    if cfg.maxRetries >= 0 && !cfg.hasDLQ {
      forall es: seq<Event> | Run(cfg, es).Some? && !FetchesWhenDone(es) ensures Lost(Run(cfg, es).value) == {} {
        NothingLost(cfg, es);
      }
    } else {
      var es;
      if cfg.maxRetries < 0 {
        es := NegativeRetriesLoseMessage(cfg);
      } else {
        es := DLQFailureLosesMessage(cfg);
      }
      NotDoneWithoutCancel(es);
      assert 0 in Lost(Run(cfg, es).value);
    }
  }
}
