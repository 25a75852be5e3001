/** What every run of the application guarantees, whichever of its four return paths it takes. */
module LifecycleTheorems {
  import opened Common
  import opened Lifecycle

  // ---------------------------------------------------------------- reading a trace

  datatype Kind = Inited | Started | Stopped | Closed

  function NameIn(e: Event, kind: Kind): seq<string> {
    match (e, kind)
    case (Init(n), Inited) => [n]
    case (Start(n, true), Started) => [n]
    case (Stop(n), Stopped) => [n]
    case (Close(n), Closed) => [n]
    case _ => []
  }

  /** The names of the events of one kind, in the order they happened. */
  function Names(tr: seq<Event>, kind: Kind): seq<string> {
    if tr == [] then [] else NameIn(tr[0], kind) + Names(tr[1..], kind)
  }

  lemma {:induction false} NamesAppend(a: seq<Event>, b: seq<Event>, kind: Kind)
    ensures Names(a + b, kind) == Names(a, kind) + Names(b, kind)
  {
    if a == [] {
      assert a + b == b;
    } else {
      NamesAppend(a[1..], b, kind);
      assert (a + b)[1..] == a[1..] + b;
      Associative(NameIn(a[0], kind), Names(a[1..], kind), Names(b, kind));
    }
  }

  lemma NamesFirst(e: Event, tr: seq<Event>, kind: Kind)
    ensures Names([e] + tr, kind) == NameIn(e, kind) + Names(tr, kind)
  {
    assert ([e] + tr)[1..] == tr;
  }

  lemma {:induction false} NoNames(tr: seq<Event>, kind: Kind)
    requires forall k :: 0 <= k < |tr| ==> NameIn(tr[k], kind) == []
    ensures Names(tr, kind) == []
  {
    if tr != [] { NoNames(tr[1..], kind); }
  }

  function NamesOf(cs: seq<NamedComponent>): seq<string> {
    if cs == [] then [] else NamesOf(cs[..|cs|-1]) + [cs[|cs|-1].name]
  }

  lemma {:induction false} NamesOfAt(cs: seq<NamedComponent>)
    ensures |NamesOf(cs)| == |cs| && forall i :: 0 <= i < |cs| ==> NamesOf(cs)[i] == cs[i].name
  {
    if cs != [] { NamesOfAt(cs[..|cs|-1]); }
  }

  function PluginNames(ps: seq<Plugin>): seq<string> {
    if ps == [] then [] else PluginNames(ps[..|ps|-1]) + [ps[|ps|-1].name]
  }

  lemma {:induction false} StartsNames(cs: seq<NamedComponent>, hooks: seq<HookId>, kind: Kind)
    ensures Names(Starts(cs, hooks), kind) == if kind.Started? then NamesOf(cs) else []
  {
    if cs != [] {
      var p, n := cs[..|cs|-1], cs[|cs|-1].name;
      StartsNames(p, hooks, kind);
      AttemptNames(hooks, n, true, kind);
      NamesAppend(Starts(p, hooks), StartAttempt(hooks, n, true), kind);
    }
  }

  lemma AttemptNames(hooks: seq<HookId>, name: string, ok: bool, kind: Kind)
    ensures Names(StartAttempt(hooks, name, ok), kind) == if kind.Started? && ok then [name] else []
  {
    NoNames(Hooks(hooks, name), kind);
    NamesAppend(Hooks(hooks, name), [Start(name, ok)], kind);
  }

  lemma NamesOfSum(a: seq<Event>, b: seq<Event>, c: seq<Event>, d: seq<Event>, e: seq<Event>, kind: Kind)
    requires Names(c, kind) == []
    ensures Names(a + b + c + d + e, kind) == Names(a, kind) + Names(b, kind) + Names(d, kind) + Names(e, kind)
  {
    NamesAppend(a, b, kind);
    NamesAppend(a + b, c, kind);
    NamesAppend(a + b + c, d, kind);
    NamesAppend(a + b + c + d, e, kind);
    var names := Names(a, kind) + Names(b, kind);
    assert names + [] == names;
  }

  lemma {:induction false} StopsNames(cs: seq<NamedComponent>, kind: Kind)
    ensures Names(Stops(cs), kind) == if kind.Stopped? then Reverse(NamesOf(cs)) else []
  {
    if cs != [] {
      var p := cs[..|cs|-1];
      StopsNames(p, kind);
      NamesFirst(Stop(cs[|cs|-1].name), Stops(p), kind);
      ReverseAdd(NamesOf(p), cs[|cs|-1].name);
    }
  }

  lemma {:induction false} InitsNames(ps: seq<Plugin>, kind: Kind)
    ensures Names(Inits(ps), kind) == if kind.Inited? then PluginNames(ps) else []
  {
    if ps != [] {
      var p := ps[..|ps|-1];
      InitsNames(p, kind);
      var last := [Init(ps[|ps|-1].name)];
      InitsMore(ps);
      NamesAppend(Inits(p), last, kind);
      assert last[1..] == [] && Names(last, kind) == NameIn(last[0], kind) + [];
    }
  }

  lemma InitsMore(ps: seq<Plugin>)
    requires ps != []
    ensures Inits(ps) == Inits(ps[..|ps|-1]) + [Init(ps[|ps|-1].name)]
  {}

  lemma {:induction false} ClosesNames(ps: seq<Plugin>, kind: Kind)
    ensures Names(Closes(ps), kind) == if kind.Closed? then Reverse(PluginNames(ps)) else []
  {
    if ps != [] {
      var p := ps[..|ps|-1];
      ClosesNames(p, kind);
      NamesFirst(Close(ps[|ps|-1].name), Closes(p), kind);
      ReverseAdd(PluginNames(p), ps[|ps|-1].name);
    }
  }

  // ---------------------------------------------------------------- order of events

  /** The names of each kind on each path. */
  function ExpectedNames(path: Path, plugins: seq<Plugin>, cs: seq<NamedComponent>, kind: Kind): seq<string> {
    match kind
    case Inited => PluginNames(InitialisedBy(path, plugins))
    case Started => NamesOf(cs)
    case Stopped => Reverse(NamesOf(cs))
    case Closed => if path.Shutdown? then Reverse(PluginNames(plugins)) else []
  }

  lemma TraceNames(path: Path, plugins: seq<Plugin>, r: Registry, env: Env, kind: Kind)
    requires Takes(path, plugins, r, env)
    ensures Names(TraceOf(path, plugins, r, env), kind)
      == ExpectedNames(path, plugins, StartedBy(path, r.components), kind)
  {
    var cs, err := StartedBy(path, r.components), StopErrorOf(path, r, env);
    MiddleNames(path, r, kind);
    NamesOfSum(Inits(InitialisedBy(path, plugins)), Starts(cs, r.beforeStart), Middle(path, r), Stops(cs),
               Ending(path, plugins, r, err), kind);
    EndingNames(path, plugins, r, err, kind);
    OneKind(path, plugins, cs, r.beforeStart, kind);
  }

  /** Between the last successful Start and the first Stop there are hooks and at most one failed Start. */
  lemma MiddleNames(path: Path, r: Registry, kind: Kind)
    ensures Names(Middle(path, r), kind) == []
  {
    NoNames(Middle(path, r), kind);
  }

  lemma EndingNames(path: Path, plugins: seq<Plugin>, r: Registry, err: Option<Error>, kind: Kind)
    ensures Names(Ending(path, plugins, r, err), kind)
      == if path.Shutdown? && kind.Closed? then Reverse(PluginNames(plugins)) else []
  {
    if path.Shutdown? {
      NoNames(AfterStops(r.afterStop, err), kind);
      NamesAppend(AfterStops(r.afterStop, err), Closes(plugins), kind);
      ClosesNames(plugins, kind);
      assert [] + Names(Closes(plugins), kind) == Names(Closes(plugins), kind);
    }
  }

  /** Only one phase has events of a given kind. */
  lemma OneKind(path: Path, plugins: seq<Plugin>, cs: seq<NamedComponent>, hooks: seq<HookId>, kind: Kind)
    ensures Names(Inits(InitialisedBy(path, plugins)), kind) + Names(Starts(cs, hooks), kind)
      + Names(Stops(cs), kind) + (if path.Shutdown? && kind.Closed? then Reverse(PluginNames(plugins)) else [])
      == ExpectedNames(path, plugins, cs, kind)
  {
    StartsNames(cs, hooks, kind);
    StopsNames(cs, kind);
    InitsNames(InitialisedBy(path, plugins), kind);
    var x := ExpectedNames(path, plugins, cs, kind);
    assert x + [] == x && [] + x == x;
  }

  /** On every path the Stop events are the reverse of the successful Start events. */
  lemma StopsReverseStarts(path: Path, plugins: seq<Plugin>, r: Registry, env: Env)
    requires Takes(path, plugins, r, env)
    ensures var tr := TraceOf(path, plugins, r, env); Names(tr, Stopped) == Reverse(Names(tr, Started))
  {
    TraceNames(path, plugins, r, env, Stopped);
    TraceNames(path, plugins, r, env, Started);
  }

  /** Plugins are closed in reverse of their initialisation on the path that reaches shutdown, and on
      no other path. */
  lemma ClosesReverseInits(path: Path, plugins: seq<Plugin>, r: Registry, env: Env)
    requires Takes(path, plugins, r, env)
    ensures var tr := TraceOf(path, plugins, r, env);
            Names(tr, Closed) == if path.Shutdown? then Reverse(Names(tr, Inited)) else []
  {
    TraceNames(path, plugins, r, env, Closed);
    TraceNames(path, plugins, r, env, Inited);
  }

  /** Names being unique, every started component is stopped exactly once, and the component whose
      hook or Start failed, like those after it, is never stopped. */
  lemma StoppedExactlyOnce(path: Path, plugins: seq<Plugin>, r: Registry, env: Env)
    requires Takes(path, plugins, r, env) && UniqueNames(r.components)
    ensures var tr := TraceOf(path, plugins, r, env);
            && Distinct(Names(tr, Stopped))
            && (forall n :: n in Names(tr, Stopped) <==> n in Names(tr, Started))
            && (forall i :: 0 <= i < |r.components| ==>
                  (r.components[i].name in Names(tr, Stopped) <==> i < |StartedBy(path, r.components)|))
  {
    TraceNames(path, plugins, r, env, Stopped);
    TraceNames(path, plugins, r, env, Started);
    var n := |StartedBy(path, r.components)|;
    assert StartedBy(path, r.components) == r.components[..n];
    PrefixStopped(r.components, n);
  }

  lemma PrefixStopped(cs: seq<NamedComponent>, n: nat)
    requires UniqueNames(cs) && n <= |cs|
    ensures var ns := NamesOf(cs[..n]);
            && Distinct(Reverse(ns))
            && (forall x :: x in Reverse(ns) <==> x in ns)
            && (forall i :: 0 <= i < |cs| ==> (cs[i].name in Reverse(ns) <==> i < n))
  {
    var ns := NamesOf(cs[..n]);
    NamesOfAt(cs[..n]);
    ReverseAt(ns);
    forall x ensures x in Reverse(ns) <==> x in ns { ReverseMember(ns, x); }
    forall i | 0 <= i < |cs| ensures cs[i].name in ns <==> i < n {
      if i < n { assert ns[i] == cs[i].name; }
    }
  }

  lemma ReverseMember<T>(s: seq<T>, x: T)
    ensures x in Reverse(s) <==> x in s
  {
    ReverseAt(s);
    if x in s {
      var i :| 0 <= i < |s| && s[i] == x;
      assert Reverse(s)[|s| - 1 - i] == x;
    }
  }

  // ---------------------------------------------------------------- hooks before starts

  /** Every Start directly follows all the BeforeStart hooks, in order, for its component. */
  ghost predicate HooksPrecede(tr: seq<Event>, hooks: seq<HookId>) {
    forall k :: 0 <= k < |tr| && tr[k].Start? ==> k >= |hooks| && tr[k-|hooks|..k] == Hooks(hooks, tr[k].name)
  }

  lemma HooksPrecedeAppend(a: seq<Event>, b: seq<Event>, hooks: seq<HookId>)
    requires HooksPrecede(a, hooks) && HooksPrecede(b, hooks)
    ensures HooksPrecede(a + b, hooks)
  {
    var tr := a + b;
    forall k | 0 <= k < |tr| && tr[k].Start? ensures k >= |hooks| && tr[k-|hooks|..k] == Hooks(hooks, tr[k].name) {
      if k < |a| {
        assert tr[k-|hooks|..k] == a[k-|hooks|..k];
      } else {
        assert b[k-|a|].Start?;
        assert tr[k-|hooks|..k] == b[k-|a|-|hooks|..k-|a|];
      }
    }
  }

  lemma AttemptPreceded(hooks: seq<HookId>, name: string, ok: bool)
    ensures HooksPrecede(StartAttempt(hooks, name, ok), hooks)
  {
    var tr := StartAttempt(hooks, name, ok);
    assert tr[..|hooks|] == Hooks(hooks, name);
  }

  lemma {:induction false} StartsPreceded(cs: seq<NamedComponent>, hooks: seq<HookId>)
    ensures HooksPrecede(Starts(cs, hooks), hooks)
  {
    if cs != [] {
      var p, n := cs[..|cs|-1], cs[|cs|-1].name;
      StartsPreceded(p, hooks);
      AttemptPreceded(hooks, n, true);
      HooksPrecedeAppend(Starts(p, hooks), StartAttempt(hooks, n, true), hooks);
    }
  }

  lemma {:induction false} StopsAreStops(cs: seq<NamedComponent>)
    ensures forall k :: 0 <= k < |Stops(cs)| ==> Stops(cs)[k].Stop?
  {
    if cs != [] { StopsAreStops(cs[..|cs|-1]); }
  }

  lemma {:induction false} ClosesAreCloses(ps: seq<Plugin>)
    ensures forall k :: 0 <= k < |Closes(ps)| ==> Closes(ps)[k].Close?
  {
    if ps != [] { ClosesAreCloses(ps[..|ps|-1]); }
  }

  lemma EndingHasNoStart(path: Path, plugins: seq<Plugin>, r: Registry, err: Option<Error>)
    ensures forall k :: 0 <= k < |Ending(path, plugins, r, err)| ==>
      Ending(path, plugins, r, err)[k].AfterStop? || Ending(path, plugins, r, err)[k].Close?
  {
    ClosesAreCloses(plugins);
  }

  lemma StartsFollowHooks(path: Path, plugins: seq<Plugin>, r: Registry, env: Env)
    requires Takes(path, plugins, r, env)
    ensures HooksPrecede(TraceOf(path, plugins, r, env), r.beforeStart)
  {
    var cs, hooks, err := StartedBy(path, r.components), r.beforeStart, StopErrorOf(path, r, env);
    var inits, starts, middle := Inits(InitialisedBy(path, plugins)), Starts(cs, hooks), Middle(path, r);
    StartsPreceded(cs, hooks);
    MiddlePreceded(path, r);
    StopsAreStops(cs);
    EndingHasNoStart(path, plugins, r, err);
    HooksPrecedeAppend(inits, starts, hooks);
    HooksPrecedeAppend(inits + starts, middle, hooks);
    HooksPrecedeAppend(inits + starts + middle, Stops(cs), hooks);
    HooksPrecedeAppend(inits + starts + middle + Stops(cs), Ending(path, plugins, r, err), hooks);
  }

  lemma MiddlePreceded(path: Path, r: Registry)
    ensures HooksPrecede(Middle(path, r), r.beforeStart)
  {
    if path.StartFailed? && path.component < |r.components| {
      AttemptPreceded(r.beforeStart, r.components[path.component].name, false);
    }
  }

  // ---------------------------------------------------------------- the whole trace

  /** The phase of Run that an event belongs to. */
  function PhaseOf(e: Event): nat {
    match e
    case Init(_) => 0
    case BeforeStart(_, _) => 1
    case Start(_, _) => 1
    case AfterStart(_) => 2
    case BeforeStop(_) => 3
    case Stop(_) => 4
    case AfterStop(_, _) => 5
    case Close(_) => 6
  }

  ghost predicate InPhase(tr: seq<Event>, phase: nat) { forall k :: 0 <= k < |tr| ==> PhaseOf(tr[k]) == phase }

  /** Each phase is over before the next begins. */
  ghost predicate PhasesInOrder(tr: seq<Event>) {
    forall j, k :: 0 <= j < k < |tr| ==> PhaseOf(tr[j]) <= PhaseOf(tr[k])
  }

  /** The events of one phase, in order. */
  function Only(tr: seq<Event>, phase: nat): seq<Event> {
    if tr == [] then []
    else Only(tr[..|tr|-1], phase) + if PhaseOf(tr[|tr|-1]) == phase then [tr[|tr|-1]] else []
  }

  lemma {:induction false} OnlyAppend(a: seq<Event>, b: seq<Event>, phase: nat, own: nat)
    requires InPhase(b, own)
    ensures Only(a + b, phase) == if phase == own then Only(a, phase) + b else Only(a, phase)
  {
    if b == [] {
      assert a + b == a && Only(a, phase) + b == Only(a, phase);
    } else {
      var n := |b| - 1;
      OnlyAppend(a, b[..n], phase, own);
      assert (a + b)[..|a + b| - 1] == a + b[..n];
      assert Only(a, phase) + b == (Only(a, phase) + b[..n]) + [b[n]];
    }
  }

  /** The events of phase `i` on a path. */
  ghost function Segment(path: Path, plugins: seq<Plugin>, r: Registry, env: Env, i: nat): seq<Event> {
    var started := StartedBy(path, r.components);
    if i == 0 then Inits(InitialisedBy(path, plugins))
    else if i == 1 then Starts(started, r.beforeStart) + if path.Shutdown? then [] else Middle(path, r)
    else if i == 4 then Stops(started)
    else if !path.Shutdown? then []
    else if i == 2 then AfterStarts(r.afterStart)
    else if i == 3 then BeforeStops(r.beforeStop)
    else if i == 5 then AfterStops(r.afterStop, StopErrorOf(path, r, env))
    else if i == 6 then Closes(plugins)
    else []
  }

  function Concat(segments: seq<seq<Event>>): seq<Event> {
    if segments == [] then [] else Concat(segments[..|segments|-1]) + segments[|segments|-1]
  }

  ghost predicate ByPhase(segments: seq<seq<Event>>) { forall i: nat :: i < |segments| ==> InPhase(segments[i], i) }

  lemma SegmentInPhase(path: Path, plugins: seq<Plugin>, r: Registry, env: Env, i: nat)
    requires Takes(path, plugins, r, env)
    ensures InPhase(Segment(path, plugins, r, env, i), i)
  {
    var started := StartedBy(path, r.components);
    StartsAreStarts(started, r.beforeStart);
    StopsAreStops(started);
    ClosesAreCloses(plugins);
  }

  lemma {:induction false} ConcatOnly(segments: seq<seq<Event>>, phase: nat)
    requires ByPhase(segments)
    ensures Only(Concat(segments), phase) == if phase < |segments| then segments[phase] else []
  {
    if segments != [] {
      var n := |segments| - 1;
      var before := Concat(segments[..n]);
      ConcatOnly(segments[..n], phase);
      assert InPhase(segments[n], n);
      OnlyAppend(before, segments[n], phase, n);
      if phase == n {
        assert Only(before, phase) == [];
        assert [] + segments[n] == segments[n];
      }
    }
  }

  lemma {:induction false} ConcatInOrder(segments: seq<seq<Event>>)
    requires ByPhase(segments)
    ensures var tr := Concat(segments); PhasesInOrder(tr) && forall k :: 0 <= k < |tr| ==> PhaseOf(tr[k]) < |segments|
  {
    if segments != [] {
      var n := |segments| - 1;
      ConcatInOrder(segments[..n]);
      assert InPhase(segments[n], n);
    }
  }

  ghost function Segments(path: Path, plugins: seq<Plugin>, r: Registry, env: Env): seq<seq<Event>> {
    seq(7, i requires 0 <= i < 7 => Segment(path, plugins, r, env, i))
  }

  lemma TraceIsSegments(path: Path, plugins: seq<Plugin>, r: Registry, env: Env)
    requires Takes(path, plugins, r, env)
    ensures TraceOf(path, plugins, r, env) == Concat(Segments(path, plugins, r, env))
    ensures ByPhase(Segments(path, plugins, r, env))
  {
    var s0, s4 := Segment(path, plugins, r, env, 0), Segment(path, plugins, r, env, 4);
    var starts, middle := Starts(StartedBy(path, r.components), r.beforeStart), Middle(path, r);
    ConcatSeven(Segments(path, plugins, r, env));
    if path.Shutdown? {
      RegroupShutdown(s0, starts, AfterStarts(r.afterStart), BeforeStops(r.beforeStop), s4,
                      Segment(path, plugins, r, env, 5), Closes(plugins));
    } else {
      RegroupAborted(s0, starts, middle, s4);
    }
    forall i: nat | i < 7 ensures InPhase(Segment(path, plugins, r, env, i), i) {
      SegmentInPhase(path, plugins, r, env, i);
    }
  }

  lemma ConcatSeven(s: seq<seq<Event>>)
    requires |s| == 7
    ensures Concat(s) == s[0] + s[1] + s[2] + s[3] + s[4] + s[5] + s[6]
  {
    ConcatMore(s, 0);
    ConcatMore(s, 1);
    ConcatMore(s, 2);
    ConcatMore(s, 3);
    ConcatMore(s, 4);
    ConcatMore(s, 5);
    ConcatMore(s, 6);
    assert s[..7] == s;
  }

  lemma ConcatMore(s: seq<seq<Event>>, k: nat)
    requires k < |s|
    ensures Concat(s[..k+1]) == Concat(s[..k]) + s[k] && (k == 0 ==> Concat(s[..k+1]) == s[k])
  {
    assert s[..k+1][..k] == s[..k];
    assert [] + s[k] == s[k];
  }

  lemma RegroupShutdown<T>(a: seq<T>, b: seq<T>, c: seq<T>, d: seq<T>, e: seq<T>, f: seq<T>, g: seq<T>)
    ensures a + b + (c + d) + e + (f + g) == a + (b + []) + c + d + e + f + g
  {}

  lemma RegroupAborted<T>(a: seq<T>, b: seq<T>, c: seq<T>, d: seq<T>)
    ensures a + b + c + d + [] == a + (b + c) + [] + [] + d + [] + []
  {}

  /** One attempt to start component `c`: all hooks for it, in order, and then the start. */
  ghost predicate IsAttempt(tr: seq<Event>, r: Registry, c: nat, ok: bool) {
    && c < |r.components| && |tr| == |r.beforeStart| + 1
    && (forall j :: 0 <= j < |r.beforeStart| ==> tr[j] == BeforeStart(r.beforeStart[j], r.components[c].name))
    && tr[|r.beforeStart|] == Start(r.components[c].name, ok)
  }

  /** Successful attempts to start the first `n` components, one after the other. */
  ghost predicate AreAttempts(tr: seq<Event>, r: Registry, n: nat) {
    if n == 0 then tr == []
    else
      && |tr| > |r.beforeStart|
      && var k := |tr| - (|r.beforeStart| + 1);
         IsAttempt(tr[k..], r, n - 1, true) && AreAttempts(tr[..k], r, n - 1)
  }

  /** What a path adds to the successful attempts: nothing, hooks up to one that fails, or a start that fails. */
  ghost predicate LastAttempt(path: Path, r: Registry, tail: seq<Event>) {
    match path
    case HookFailed(c, h) =>
      && c < |r.components| && |tail| == h + 1 <= |r.beforeStart|
      && forall j :: 0 <= j <= h ==> tail[j] == BeforeStart(r.beforeStart[j], r.components[c].name)
    case StartFailed(c) => IsAttempt(tail, r, c, false)
    case _ => tail == []
  }

  lemma {:induction false} StartsExact(r: Registry, n: nat)
    requires n <= |r.components|
    ensures AreAttempts(Starts(r.components[..n], r.beforeStart), r, n)
  {
    if n > 0 {
      var before, tr := Starts(r.components[..n-1], r.beforeStart), Starts(r.components[..n], r.beforeStart);
      var attempt := StartAttempt(r.beforeStart, r.components[n-1].name, true);
      StartsExact(r, n - 1);
      OneMoreStart(r, n);
      var k := |tr| - (|r.beforeStart| + 1);
      assert tr[k..] == attempt && tr[..k] == before;
      assert IsAttempt(attempt, r, n - 1, true);
    }
  }

  lemma OneMoreStart(r: Registry, n: nat)
    requires 0 < n <= |r.components|
    ensures Starts(r.components[..n], r.beforeStart)
      == Starts(r.components[..n-1], r.beforeStart) + StartAttempt(r.beforeStart, r.components[n-1].name, true)
  {
    assert r.components[..n][..n-1] == r.components[..n-1];
  }

  lemma {:induction false} StopsExact(cs: seq<NamedComponent>, n: nat)
    requires n <= |cs|
    ensures |Stops(cs[..n])| == n && forall i :: 0 <= i < n ==> Stops(cs[..n])[i] == Stop(cs[n-1-i].name)
  {
    if n > 0 {
      StopsExact(cs, n - 1);
      assert cs[..n][..n-1] == cs[..n-1];
    }
  }

  lemma {:induction false} ClosesExact(ps: seq<Plugin>, n: nat)
    requires n <= |ps|
    ensures |Closes(ps[..n])| == n && forall i :: 0 <= i < n ==> Closes(ps[..n])[i] == Close(ps[n-1-i].name)
  {
    if n > 0 {
      ClosesExact(ps, n - 1);
      assert ps[..n][..n-1] == ps[..n-1];
    }
  }

  lemma PhaseEvents(path: Path, plugins: seq<Plugin>, r: Registry, env: Env, phase: nat)
    requires Takes(path, plugins, r, env) && phase < 7
    ensures PhasesInOrder(TraceOf(path, plugins, r, env))
    ensures Only(TraceOf(path, plugins, r, env), phase) == Segment(path, plugins, r, env, phase)
  {
    TraceIsSegments(path, plugins, r, env);
    ConcatOnly(Segments(path, plugins, r, env), phase);
    ConcatInOrder(Segments(path, plugins, r, env));
  }

  /** The plugins are initialised in order, up to and including the one that fails. */
  lemma InitsExact(path: Path, plugins: seq<Plugin>, r: Registry, env: Env)
    requires Takes(path, plugins, r, env)
    ensures var inits := Only(TraceOf(path, plugins, r, env), 0);
            && |inits| == (if path.InitFailed? then path.plugin + 1 else |plugins|) <= |plugins|
            && forall i :: 0 <= i < |inits| ==> inits[i] == Init(plugins[i].name)
  {
    PhaseEvents(path, plugins, r, env, 0);
  }

  /** Component after component: all its hooks in order, then its start; and of the attempt that fails, the hooks up
      to the failing one, or all of them and the failing start. */
  lemma AttemptsExact(path: Path, plugins: seq<Plugin>, r: Registry, env: Env)
    returns (done: seq<Event>, tail: seq<Event>)
    requires Takes(path, plugins, r, env)
    ensures Only(TraceOf(path, plugins, r, env), 1) == done + tail
    ensures AreAttempts(done, r, StartedCount(path, r)) && LastAttempt(path, r, tail)
  {
    var n := StartedCount(path, r);
    PhaseEvents(path, plugins, r, env, 1);
    assert StartedBy(path, r.components) == r.components[..n];
    StartsExact(r, n);
    done := Starts(r.components[..n], r.beforeStart);
    tail := if path.Shutdown? then [] else Middle(path, r);
    TailExact(path, plugins, r, env, tail);
  }

  lemma TailExact(path: Path, plugins: seq<Plugin>, r: Registry, env: Env, tail: seq<Event>)
    requires Takes(path, plugins, r, env) && tail == if path.Shutdown? then [] else Middle(path, r)
    ensures LastAttempt(path, r, tail)
  {}

  ghost predicate AreAfterStarts(es: seq<Event>, hooks: seq<HookId>) {
    |es| == |hooks| && forall j :: 0 <= j < |es| ==> es[j] == AfterStart(hooks[j])
  }

  ghost predicate AreBeforeStops(es: seq<Event>, hooks: seq<HookId>) {
    |es| == |hooks| && forall j :: 0 <= j < |es| ==> es[j] == BeforeStop(hooks[j])
  }

  ghost predicate AreAfterStops(es: seq<Event>, hooks: seq<HookId>) {
    |es| == |hooks| && forall j :: 0 <= j < |es| ==> es[j].AfterStop? && es[j].hook == hooks[j]
  }

  /** Stops of the first `n` components, last one first. */
  ghost predicate AreStops(es: seq<Event>, cs: seq<NamedComponent>, n: nat) {
    n <= |cs| && |es| == n && forall i :: 0 <= i < n ==> es[i] == Stop(cs[n-1-i].name)
  }

  ghost predicate AreCloses(es: seq<Event>, ps: seq<Plugin>, n: nat) {
    n <= |ps| && |es| == n && forall i :: 0 <= i < n ==> es[i] == Close(ps[n-1-i].name)
  }

  lemma HookSegments(path: Path, plugins: seq<Plugin>, r: Registry, env: Env)
    requires Takes(path, plugins, r, env)
    ensures AreAfterStarts(Segment(path, plugins, r, env, 2), if path.Shutdown? then r.afterStart else [])
    ensures AreBeforeStops(Segment(path, plugins, r, env, 3), if path.Shutdown? then r.beforeStop else [])
    ensures AreAfterStops(Segment(path, plugins, r, env, 5), if path.Shutdown? then r.afterStop else [])
  {}

  lemma StopSegment(path: Path, plugins: seq<Plugin>, r: Registry, env: Env)
    requires Takes(path, plugins, r, env)
    ensures AreStops(Segment(path, plugins, r, env, 4), r.components, StartedCount(path, r))
  {
    var n := StartedCount(path, r);
    assert StartedBy(path, r.components) == r.components[..n];
    StopsExact(r.components, n);
  }

  lemma CloseSegment(path: Path, plugins: seq<Plugin>, r: Registry, env: Env)
    ensures AreCloses(Segment(path, plugins, r, env, 6), plugins, if path.Shutdown? then |plugins| else 0)
  {
    ClosesExact(plugins, |plugins|);
    assert plugins[..|plugins|] == plugins;
  }

  /** On shutdown the hooks after starting, before stopping and after stopping are called once each, in order, each in
      its place; on the other paths none is. */
  lemma HooksExact(path: Path, plugins: seq<Plugin>, r: Registry, env: Env)
    requires Takes(path, plugins, r, env)
    ensures PhasesInOrder(TraceOf(path, plugins, r, env))
    ensures AreAfterStarts(Only(TraceOf(path, plugins, r, env), 2), if path.Shutdown? then r.afterStart else [])
    ensures AreBeforeStops(Only(TraceOf(path, plugins, r, env), 3), if path.Shutdown? then r.beforeStop else [])
    ensures AreAfterStops(Only(TraceOf(path, plugins, r, env), 5), if path.Shutdown? then r.afterStop else [])
  {
    PhaseEvents(path, plugins, r, env, 2);
    PhaseEvents(path, plugins, r, env, 3);
    PhaseEvents(path, plugins, r, env, 5);
    HookSegments(path, plugins, r, env);
  }

  /** The started components are stopped from the last to the first, and on shutdown, and only then, the plugins are
      closed likewise. */
  lemma StopsAndClosesExact(path: Path, plugins: seq<Plugin>, r: Registry, env: Env)
    requires Takes(path, plugins, r, env)
    ensures AreStops(Only(TraceOf(path, plugins, r, env), 4), r.components, StartedCount(path, r))
    ensures AreCloses(Only(TraceOf(path, plugins, r, env), 6), plugins, if path.Shutdown? then |plugins| else 0)
  {
    PhaseEvents(path, plugins, r, env, 4);
    PhaseEvents(path, plugins, r, env, 6);
    StopSegment(path, plugins, r, env);
    CloseSegment(path, plugins, r, env);
  }

  // ---------------------------------------------------------------- the result

  /** A message at a leaf of an error tree, with the context it is wrapped in. */
  datatype Report = Report(context: string, msg: string)

  function Leaves(e: Error, context: string): seq<Report>
    decreases e, 0
  {
    match e
    case Leaf(m) => [Report(context, m)]
    case Wrap(inner, cause) => Leaves(cause, inner)
    case Join(errs) => LeavesOfAll(errs)
  }

  function LeavesOfAll(errs: seq<Error>): seq<Report>
    decreases errs, 0
  {
    if errs == [] then [] else Leaves(errs[0], "") + LeavesOfAll(errs[1..])
  }

  function LeavesOf(e: Option<Error>): seq<Report> {
    if e.Some? then Leaves(e.value, "") else []
  }

  function LeavesOfEach(errs: seq<Option<Error>>): seq<Report> {
    if errs == [] then [] else LeavesOf(errs[0]) + LeavesOfEach(errs[1..])
  }

  function ReportOf(context: string, outcome: Option<string>): seq<Report> {
    if outcome.Some? then [Report(context, outcome.value)] else []
  }

  /** The failures of stopping the first `n` components, highest first, each under its component's name. */
  function StopReports(cs: seq<NamedComponent>, outcome: nat -> Option<string>, n: nat): seq<Report>
    requires n <= |cs|
  {
    if n == 0 then [] else ReportOf("stop " + cs[n-1].name, outcome(n - 1)) + StopReports(cs, outcome, n - 1)
  }

  function CloseReports(ps: seq<Plugin>, outcome: nat -> Option<string>, n: nat): seq<Report>
    requires n <= |ps|
  {
    if n == 0 then [] else ReportOf("plugin close " + ps[n-1].name, outcome(n - 1)) + CloseReports(ps, outcome, n - 1)
  }

  lemma LeavesCons(e: Error, es: seq<Error>)
    ensures LeavesOfAll([e] + es) == Leaves(e, "") + LeavesOfAll(es)
  {
    assert ([e] + es)[1..] == es;
  }

  lemma {:induction false} PresentLeaves(errs: seq<Option<Error>>)
    ensures LeavesOfAll(Present(errs)) == LeavesOfEach(errs)
  {
    if errs != [] {
      PresentLeaves(errs[1..]);
      if errs[0].Some? {
        LeavesCons(errs[0].value, Present(errs[1..]));
      } else {
        assert [] + Present(errs[1..]) == Present(errs[1..]) && [] + LeavesOfEach(errs[1..]) == LeavesOfEach(errs[1..]);
      }
    }
  }

  lemma {:induction false} PresentNone(errs: seq<Option<Error>>)
    ensures Present(errs) == [] <==> forall i :: 0 <= i < |errs| ==> errs[i].None?
  {
    if errs != [] {
      PresentNone(errs[1..]);
      assert forall i :: 1 <= i < |errs| ==> errs[i] == errs[1..][i-1];
    }
  }

  lemma JoinKeepsLeaves(errs: seq<Option<Error>>)
    ensures LeavesOf(JoinAll(errs)) == LeavesOfEach(errs)
    ensures JoinAll(errs).None? <==> forall i :: 0 <= i < |errs| ==> errs[i].None?
  {
    PresentLeaves(errs);
    PresentNone(errs);
  }

  lemma {:induction false} GivenLeaves(errs: seq<Error>)
    ensures LeavesOfEach(Given(errs)) == LeavesOfAll(errs)
  {
    if errs != [] {
      assert Given(errs)[1..] == Given(errs[1..]);
      GivenLeaves(errs[1..]);
    }
  }

  lemma FailedLeaves(context: string, outcome: Option<string>, es: seq<Error>)
    ensures LeavesOfAll(Failed(context, outcome) + es) == ReportOf(context, outcome) + LeavesOfAll(es)
  {
    if outcome.Some? {
      LeavesCons(Wrap(context, Leaf(outcome.value)), es);
    } else {
      assert [] + es == es && [] + LeavesOfAll(es) == LeavesOfAll(es);
    }
  }

  lemma {:induction false} StopReportsPrefix(cs: seq<NamedComponent>, outcome: nat -> Option<string>, m: nat, n: nat)
    requires n <= m <= |cs|
    ensures StopReports(cs[..m], outcome, n) == StopReports(cs, outcome, n)
  {
    if n > 0 { StopReportsPrefix(cs, outcome, m, n - 1); }
  }

  lemma {:induction false} CloseReportsPrefix(ps: seq<Plugin>, outcome: nat -> Option<string>, m: nat, n: nat)
    requires n <= m <= |ps|
    ensures CloseReports(ps[..m], outcome, n) == CloseReports(ps, outcome, n)
  {
    if n > 0 { CloseReportsPrefix(ps, outcome, m, n - 1); }
  }

  lemma {:induction false} StopErrorLeaves(cs: seq<NamedComponent>, env: Env)
    ensures LeavesOfAll(StopErrors(cs, env)) == StopReports(cs, env.stopErr, |cs|)
    ensures StopErrors(cs, env) == [] <==> StopReports(cs, env.stopErr, |cs|) == []
  {
    if cs != [] {
      var n := |cs| - 1;
      StopErrorLeaves(cs[..n], env);
      StopReportsPrefix(cs, env.stopErr, n, n);
      FailedLeaves("stop " + cs[n].name, env.stopErr(n), StopErrors(cs[..n], env));
    }
  }

  lemma {:induction false} CloseErrorLeaves(ps: seq<Plugin>, env: Env)
    ensures LeavesOfAll(CloseErrors(ps, env)) == CloseReports(ps, env.closeErr, |ps|)
    ensures CloseErrors(ps, env) == [] <==> CloseReports(ps, env.closeErr, |ps|) == []
  {
    if ps != [] {
      var n := |ps| - 1;
      CloseErrorLeaves(ps[..n], env);
      CloseReportsPrefix(ps, env.closeErr, n, n);
      FailedLeaves("plugin close " + ps[n].name, env.closeErr(n), CloseErrors(ps[..n], env));
    }
  }

  /** The joined stop error holds exactly the stop failures, and is nil exactly when there are none. */
  lemma JoinedStopError(cs: seq<NamedComponent>, env: Env)
    ensures var err := JoinAll(Given(StopErrors(cs, env)));
            && LeavesOf(err) == StopReports(cs, env.stopErr, |cs|)
            && (err.None? <==> StopReports(cs, env.stopErr, |cs|) == [])
  {
    var errs := StopErrors(cs, env);
    StopErrorLeaves(cs, env);
    GivenLeaves(errs);
    JoinKeepsLeaves(Given(errs));
    if errs != [] { assert Given(errs)[0].Some?; }
  }

  lemma JoinedCloseError(ps: seq<Plugin>, env: Env)
    ensures var err := JoinAll(Given(CloseErrors(ps, env)));
            && LeavesOf(err) == CloseReports(ps, env.closeErr, |ps|)
            && (err.None? <==> CloseReports(ps, env.closeErr, |ps|) == [])
  {
    var errs := CloseErrors(ps, env);
    CloseErrorLeaves(ps, env);
    GivenLeaves(errs);
    JoinKeepsLeaves(Given(errs));
    if errs != [] { assert Given(errs)[0].Some?; }
  }

  /** How many components a path has started. */
  function StartedCount(path: Path, r: Registry): (n: nat)
    ensures n <= |r.components|
  {
    match path
    case InitFailed(_) => 0
    case HookFailed(c, _) => if c <= |r.components| then c else |r.components|
    case StartFailed(c) => if c <= |r.components| then c else |r.components|
    case Shutdown => |r.components|
  }

  /** The failure that aborts the run, if one does. */
  function AbortReport(path: Path, plugins: seq<Plugin>, r: Registry, env: Env): seq<Report> {
    match path
    case InitFailed(p) => if p < |plugins| then ReportOf("plugin init " + plugins[p].name, env.initErr(p)) else []
    case HookFailed(c, h) =>
      if c < |r.components| then ReportOf("before start hook " + r.components[c].name, env.hookErr(c, h)) else []
    case StartFailed(c) =>
      if c < |r.components| then ReportOf("start " + r.components[c].name, env.startErr(c)) else []
    case Shutdown => []
  }

  /** Every failure of a run, in the order it is reported. */
  function AllReports(path: Path, plugins: seq<Plugin>, r: Registry, env: Env): seq<Report> {
    AbortReport(path, plugins, r, env) + LaterReports(path, plugins, r, env)
  }

  /** Stop failures of the started components and, on shutdown, close failures. */
  function LaterReports(path: Path, plugins: seq<Plugin>, r: Registry, env: Env): seq<Report> {
    var stops := StopReports(r.components, env.stopErr, StartedCount(path, r));
    if path.Shutdown? then stops + CloseReports(plugins, env.closeErr, |plugins|) else stops
  }

  lemma StopErrorReports(path: Path, plugins: seq<Plugin>, r: Registry, env: Env)
    requires Takes(path, plugins, r, env)
    ensures var stops := StopReports(r.components, env.stopErr, StartedCount(path, r));
            LeavesOf(StopErrorOf(path, r, env)) == stops && (StopErrorOf(path, r, env).None? <==> stops == [])
  {
    var cs, n := StartedBy(path, r.components), StartedCount(path, r);
    assert cs == r.components[..n];
    JoinedStopError(cs, env);
    StopReportsPrefix(r.components, env.stopErr, n, n);
  }

  /** Run's error tree holds, in order, the aborting error if there is one, every stop error and, on shutdown, every
      close error, each under the name it belongs to; it is nil exactly when none of these occurred. */
  lemma ResultExact(path: Path, plugins: seq<Plugin>, r: Registry, env: Env)
    requires Takes(path, plugins, r, env)
    ensures LeavesOf(ResultOf(path, plugins, r, env)) == AllReports(path, plugins, r, env)
    ensures ResultOf(path, plugins, r, env).None? <==> AllReports(path, plugins, r, env) == []
  {
    var stopErr := StopErrorOf(path, r, env);
    StopErrorReports(path, plugins, r, env);
    match path
    case InitFailed(p) => SingleLeaf("plugin init " + plugins[p].name, env.initErr(p).value);
    case HookFailed(c, h) =>
      AbortJoined("before start hook " + r.components[c].name, env.hookErr(c, h).value, stopErr);
    case StartFailed(c) =>
      AbortJoined("start " + r.components[c].name, env.startErr(c).value, stopErr);
    case Shutdown =>
      JoinedCloseError(plugins, env);
      JoinTwo(stopErr, JoinAll(Given(CloseErrors(plugins, env))));
      assert [] + LaterReports(path, plugins, r, env) == LaterReports(path, plugins, r, env);
  }

  lemma SingleLeaf(context: string, m: string)
    ensures LeavesOf(Some(Wrap(context, Leaf(m)))) == [Report(context, m)] + []
  {
    assert Leaves(Leaf(m), context) == [Report(context, m)];
  }

  lemma AbortJoined(context: string, m: string, stopErr: Option<Error>)
    ensures LeavesOf(JoinAll([Some(Wrap(context, Leaf(m))), stopErr])) == [Report(context, m)] + LeavesOf(stopErr)
    ensures JoinAll([Some(Wrap(context, Leaf(m))), stopErr]).Some?
  {
    SingleLeaf(context, m);
    JoinTwo(Some(Wrap(context, Leaf(m))), stopErr);
    assert [Report(context, m)] + [] == [Report(context, m)];
  }

  lemma JoinTwo(a: Option<Error>, b: Option<Error>)
    ensures LeavesOf(JoinAll([a, b])) == LeavesOf(a) + LeavesOf(b)
    ensures JoinAll([a, b]).None? <==> a.None? && b.None?
  {
    JoinKeepsLeaves([a, b]);
    assert [a, b][1..] == [b] && [b][1..] == [];
    assert LeavesOfEach([b]) == LeavesOf(b) + [];
    assert [a, b][0] == a && [a, b][1] == b;
  }

  ghost predicate AfterStopsSee(tr: seq<Event>, err: Option<Error>) {
    forall k :: 0 <= k < |tr| && tr[k].AfterStop? ==> tr[k].err == err
  }

  lemma SeeAppend(a: seq<Event>, b: seq<Event>, err: Option<Error>)
    requires AfterStopsSee(a, err) && AfterStopsSee(b, err)
    ensures AfterStopsSee(a + b, err)
  {}

  lemma TraceSees(path: Path, plugins: seq<Plugin>, r: Registry, env: Env)
    requires Takes(path, plugins, r, env)
    ensures AfterStopsSee(TraceOf(path, plugins, r, env), StopErrorOf(path, r, env))
  {
    var cs, err := StartedBy(path, r.components), StopErrorOf(path, r, env);
    var inits, starts, middle := Inits(InitialisedBy(path, plugins)), Starts(cs, r.beforeStart), Middle(path, r);
    StartsAreStarts(cs, r.beforeStart);
    StopsAreStops(cs);
    ClosesAreCloses(plugins);
    SeeAppend(inits, starts, err);
    SeeAppend(inits + starts, middle, err);
    SeeAppend(inits + starts + middle, Stops(cs), err);
    SeeAppend(inits + starts + middle + Stops(cs), Ending(path, plugins, r, err), err);
  }

  /** AfterStop hooks are handed exactly the stop errors. */
  lemma AfterStopHooksSeeStopErrors(path: Path, plugins: seq<Plugin>, r: Registry, env: Env)
    requires Takes(path, plugins, r, env)
    ensures var stops := StopReports(r.components, env.stopErr, StartedCount(path, r));
            forall e :: e in TraceOf(path, plugins, r, env) && e.AfterStop? ==>
              LeavesOf(e.err) == stops && (e.err.None? <==> stops == [])
  {
    var tr := TraceOf(path, plugins, r, env);
    StopErrorReports(path, plugins, r, env);
    TraceSees(path, plugins, r, env);
    forall e | e in tr && e.AfterStop? ensures e.err == StopErrorOf(path, r, env) {
      var k :| 0 <= k < |tr| && tr[k] == e;
    }
  }

  lemma {:induction false} StartsAreStarts(cs: seq<NamedComponent>, hooks: seq<HookId>)
    ensures forall k :: 0 <= k < |Starts(cs, hooks)| ==>
      Starts(cs, hooks)[k].Start? || Starts(cs, hooks)[k].BeforeStart?
  {
    if cs != [] { StartsAreStarts(cs[..|cs|-1], hooks); }
  }

  // ---------------------------------------------------------------- what plugins register

  datatype HookKind = ToBeforeStart | ToAfterStart | ToBeforeStop | ToAfterStop

  function HooksOf(r: Registry, kind: HookKind): seq<HookId> {
    match kind
    case ToBeforeStart => r.beforeStart
    case ToAfterStart => r.afterStart
    case ToBeforeStop => r.beforeStop
    case ToAfterStop => r.afterStop
  }

  /** The hooks of one kind that a list of calls adds. */
  function HooksIn(calls: seq<PluginCall>, kind: HookKind): seq<HookId> {
    if calls == [] then []
    else
      HooksIn(calls[..|calls|-1], kind) +
      match (calls[|calls|-1], kind)
      case (CallOnBeforeStart(h), ToBeforeStart) => [h]
      case (CallOnAfterStart(h), ToAfterStart) => [h]
      case (CallOnBeforeStop(h), ToBeforeStop) => [h]
      case (CallOnAfterStop(h), ToAfterStop) => [h]
      case _ => []
  }

  /** Every hook goes to the list of its kind, in the order of the calls. */
  lemma {:induction false} CallsAddHooks(r: Registry, calls: seq<PluginCall>, kind: HookKind)
    ensures HooksOf(AfterCalls(r, calls), kind) == HooksOf(r, kind) + HooksIn(calls, kind)
  {
    if calls != [] {
      var n := |calls| - 1;
      CallsAddHooks(r, calls[..n], kind);
      var first, more := HooksOf(r, kind), HooksIn(calls[..n], kind);
      assert first + (more + []) == (first + more) + [];
      forall h: HookId ensures first + (more + [h]) == (first + more) + [h] {}
    } else {
      assert HooksOf(r, kind) + [] == HooksOf(r, kind);
    }
  }

  /** Call `i` registers a component under a name that neither the components before nor an earlier call has. */
  ghost predicate Registers(cs: seq<NamedComponent>, calls: seq<PluginCall>, i: nat, nc: NamedComponent) {
    && i < |calls| && calls[i].CallRegister? && calls[i].component == nc.component
    && Resolves(calls[i].name, calls[i].component, nc.name)
    && (forall k :: 0 <= k < |cs| ==> cs[k].name != nc.name)
    && (forall j :: 0 <= j < i && calls[j].CallRegister? ==> !Resolves(calls[j].name, calls[j].component, nc.name))
  }

  /** Call `i` registers nothing: some component had the name already. */
  ghost predicate Refused(cs: seq<NamedComponent>, calls: seq<PluginCall>, i: nat) {
    i < |calls| && calls[i].CallRegister? ==>
      || (exists k :: 0 <= k < |cs| && Resolves(calls[i].name, calls[i].component, cs[k].name))
      || (exists j, n :: 0 <= j < i && calls[j].CallRegister? && Resolves(calls[j].name, calls[j].component, n)
                         && Resolves(calls[i].name, calls[i].component, n))
  }

  /** What a list of calls leaves in the component list: what was there, then what the calls in `which`, in order,
      register; every other call is refused. */
  ghost predicate RegistersJust(cs: seq<NamedComponent>, calls: seq<PluginCall>, which: seq<nat>,
                                after: seq<NamedComponent>) {
    && |after| == |cs| + |which| && after[..|cs|] == cs
    && (forall a, b :: 0 <= a < b < |which| ==> which[a] < which[b])
    && (forall a :: 0 <= a < |which| ==> Registers(cs, calls, which[a], after[|cs| + a]))
    && (forall i: nat :: i < |calls| && i !in which ==> Refused(cs, calls, i))
  }

  lemma {:induction false} CallsRegisterExactly(r: Registry, calls: seq<PluginCall>) returns (which: seq<nat>)
    ensures RegistersJust(r.components, calls, which, AfterCalls(r, calls).components)
  {
    which := [];
    if calls != [] {
      var n := |calls| - 1;
      which := CallsRegisterExactly(r, calls[..n]);
      var before := AfterCalls(r, calls[..n]);
      if calls[n].CallRegister? && !Registered(before.components, ResolvedName(calls[n].name, calls[n].component)) {
        NewComponent(r.components, calls, which, before.components);
        which := which + [n];
      } else {
        NoNewComponent(r.components, calls, which, before.components);
      }
    }
  }

  lemma EarlierCalls(cs: seq<NamedComponent>, calls: seq<PluginCall>, n: nat, i: nat, nc: NamedComponent)
    requires i < n <= |calls|
    ensures Registers(cs, calls[..n], i, nc) ==> Registers(cs, calls, i, nc)
    ensures Refused(cs, calls[..n], i) ==> Refused(cs, calls, i)
  {
    if Refused(cs, calls[..n], i) && calls[i].CallRegister? {
      if j, m :| 0 <= j < i && calls[..n][j].CallRegister? && Resolves(calls[..n][j].name, calls[..n][j].component, m)
                 && Resolves(calls[..n][i].name, calls[..n][i].component, m) {
        assert calls[j].CallRegister? && Resolves(calls[j].name, calls[j].component, m);
      }
    }
  }

  lemma EarlierJust(cs: seq<NamedComponent>, calls: seq<PluginCall>, which: seq<nat>, after: seq<NamedComponent>)
    requires calls != [] && RegistersJust(cs, calls[..|calls|-1], which, after)
    ensures forall a :: 0 <= a < |which| ==> Registers(cs, calls, which[a], after[|cs| + a])
    ensures forall i: nat :: i < |calls| - 1 && i !in which ==> Refused(cs, calls, i)
    ensures forall a :: 0 <= a < |which| ==> which[a] < |calls| - 1
  {
    var n := |calls| - 1;
    forall a | 0 <= a < |which| ensures Registers(cs, calls, which[a], after[|cs| + a]) && which[a] < n {
      assert Registers(cs, calls[..n], which[a], after[|cs| + a]);
      EarlierCalls(cs, calls, n, which[a], after[|cs| + a]);
    }
    forall i: nat | i < n && i !in which ensures Refused(cs, calls, i) {
      assert Refused(cs, calls[..n], i);
      EarlierCalls(cs, calls, n, i, NamedComponent("", Component(0, None, false)));
    }
  }

  lemma NewComponent(cs: seq<NamedComponent>, calls: seq<PluginCall>, which: seq<nat>, after: seq<NamedComponent>)
    requires calls != [] && RegistersJust(cs, calls[..|calls|-1], which, after) && calls[|calls|-1].CallRegister?
    requires !Registered(after, ResolvedName(calls[|calls|-1].name, calls[|calls|-1].component))
    ensures var last := calls[|calls|-1];
            RegistersJust(cs, calls, which + [|calls| - 1],
                          after + [NamedComponent(ResolvedName(last.name, last.component), last.component)])
  {
    var n := |calls| - 1;
    var nc := NamedComponent(ResolvedName(calls[n].name, calls[n].component), calls[n].component);
    EarlierJust(cs, calls, which, after);
    assert forall k :: 0 <= k < |cs| ==> after[k] == cs[k];
    forall j | 0 <= j < n && calls[j].CallRegister? ensures !Resolves(calls[j].name, calls[j].component, nc.name) {
      if Resolves(calls[j].name, calls[j].component, nc.name) { NameTaken(cs, calls, which, after, j, nc.name); }
    }
    assert Registers(cs, calls, n, nc);
    assert (after + [nc])[|after|] == nc;
  }

  /** The name that an earlier call gives its component is in the list. */
  lemma {:induction false} NameTaken(cs: seq<NamedComponent>, calls: seq<PluginCall>, which: seq<nat>,
                                     after: seq<NamedComponent>, j: nat, name: string)
    requires calls != [] && RegistersJust(cs, calls[..|calls|-1], which, after) && j < |calls| - 1
    requires calls[j].CallRegister? && Resolves(calls[j].name, calls[j].component, name)
    ensures Registered(after, name)
    decreases j
  {
    EarlierJust(cs, calls, which, after);
    if j in which {
      var a :| 0 <= a < |which| && which[a] == j;
      assert after[|cs| + a].name == name;
    } else {
      assert Refused(cs, calls, j);
      if k :| 0 <= k < |cs| && Resolves(calls[j].name, calls[j].component, cs[k].name) {
        assert after[..|cs|][k] == after[k] && after[k].name == name;
      } else {
        var i, m :| 0 <= i < j && calls[i].CallRegister? && Resolves(calls[i].name, calls[i].component, m)
                    && Resolves(calls[j].name, calls[j].component, m);
        NameTaken(cs, calls, which, after, i, name);
      }
    }
  }

  lemma NoNewComponent(cs: seq<NamedComponent>, calls: seq<PluginCall>, which: seq<nat>, after: seq<NamedComponent>)
    requires calls != [] && RegistersJust(cs, calls[..|calls|-1], which, after)
    requires var last := calls[|calls|-1];
             last.CallRegister? ==> Registered(after, ResolvedName(last.name, last.component))
    ensures RegistersJust(cs, calls, which, after)
  {
    var n := |calls| - 1;
    EarlierJust(cs, calls, which, after);
    if calls[n].CallRegister? {
      var name := ResolvedName(calls[n].name, calls[n].component);
      var k :| 0 <= k < |after| && after[k].name == name;
      if k < |cs| {
        assert after[..|cs|][k] == cs[k] && Resolves(calls[n].name, calls[n].component, cs[k].name);
      } else {
        var j := which[k - |cs|];
        assert Registers(cs, calls, j, after[|cs| + (k - |cs|)]);
        assert calls[j].CallRegister? && Resolves(calls[j].name, calls[j].component, name)
          && Resolves(calls[n].name, calls[n].component, name);
      }
    }
  }

  /** All the calls the plugins make, plugin after plugin. */
  function AllCalls(plugins: seq<Plugin>): seq<PluginCall> {
    if plugins == [] then [] else AllCalls(plugins[..|plugins|-1]) + plugins[|plugins|-1].calls
  }

  lemma {:induction false} CallsSplit(r: Registry, a: seq<PluginCall>, b: seq<PluginCall>)
    ensures AfterCalls(r, a + b) == AfterCalls(AfterCalls(r, a), b)
  {
    if b == [] {
      assert a + b == a;
    } else {
      CallsSplit(r, a, b[..|b|-1]);
      assert (a + b)[..|a + b| - 1] == a + b[..|b|-1];
    }
  }

  lemma {:induction false} PluginsMakeCalls(r: Registry, plugins: seq<Plugin>)
    ensures AfterPlugins(r, plugins) == AfterCalls(r, AllCalls(plugins))
  {
    if plugins != [] {
      var n := |plugins| - 1;
      PluginsMakeCalls(r, plugins[..n]);
      CallsSplit(r, AllCalls(plugins[..n]), plugins[n].calls);
    }
  }

  /** The registry a run works from: the hooks registered before and by the plugins, each kind in order, and the
      components registered before, then those the plugins register under names that were free. */
  lemma PluginsExact(r: Registry, plugins: seq<Plugin>) returns (which: seq<nat>)
    ensures forall kind ::
      HooksOf(AfterPlugins(r, plugins), kind) == HooksOf(r, kind) + HooksIn(AllCalls(plugins), kind)
    ensures RegistersJust(r.components, AllCalls(plugins), which, AfterPlugins(r, plugins).components)
  {
    PluginsMakeCalls(r, plugins);
    forall kind ensures HooksOf(AfterPlugins(r, plugins), kind) == HooksOf(r, kind) + HooksIn(AllCalls(plugins), kind) {
      CallsAddHooks(r, AllCalls(plugins), kind);
    }
    which := CallsRegisterExactly(r, AllCalls(plugins));
  }

  lemma {:induction false} CallsKeepComponents(r: Registry, calls: seq<PluginCall>)
    ensures r.components <= AfterCalls(r, calls).components
  {
    if calls != [] { CallsKeepComponents(r, calls[..|calls|-1]); }
  }

  lemma {:induction false} CallsRegister(r: Registry, calls: seq<PluginCall>, i: nat)
    requires i < |calls| && calls[i].CallRegister?
    ensures Registered(AfterCalls(r, calls).components, ResolvedName(calls[i].name, calls[i].component))
  {
    var p := calls[..|calls|-1];
    var before, after := AfterCalls(r, p).components, AfterCalls(r, calls).components;
    var n := ResolvedName(calls[i].name, calls[i].component);
    if i < |p| {
      CallsRegister(r, p, i);
      var k :| 0 <= k < |before| && before[k].name == n;
      assert after[k].name == n;
    } else if !Registered(before, n) {
      assert after[|before|].name == n;
    }
  }

  /** What any plugin registers while it is initialised is in the registry the run works from. */
  lemma {:induction false} PluginComponentsRegistered(r: Registry, plugins: seq<Plugin>, p: nat, i: nat)
    requires p < |plugins| && i < |plugins[p].calls| && plugins[p].calls[i].CallRegister?
    ensures Registered(AfterPlugins(r, plugins).components,
      ResolvedName(plugins[p].calls[i].name, plugins[p].calls[i].component))
  {
    var q, last := plugins[..|plugins|-1], plugins[|plugins|-1];
    var n := ResolvedName(plugins[p].calls[i].name, plugins[p].calls[i].component);
    if p < |q| {
      PluginComponentsRegistered(r, q, p, i);
      CallsKeepComponents(AfterPlugins(r, q), last.calls);
      var before := AfterPlugins(r, q).components;
      var k :| 0 <= k < |before| && before[k].name == n;
      assert AfterPlugins(r, plugins).components[k].name == n;
    } else {
      CallsRegister(AfterPlugins(r, q), last.calls, i);
    }
  }

  /** So on the path to shutdown every component a plugin registered has been started and stopped. */
  lemma PluginComponentsRun(plugins: seq<Plugin>, r: Registry, env: Env, p: nat, i: nat)
    requires p < |plugins| && i < |plugins[p].calls| && plugins[p].calls[i].CallRegister?
    requires Takes(Shutdown, plugins, AfterPlugins(r, plugins), env)
    ensures var tr := TraceOf(Shutdown, plugins, AfterPlugins(r, plugins), env);
            var n := ResolvedName(plugins[p].calls[i].name, plugins[p].calls[i].component);
            n in Names(tr, Started) && n in Names(tr, Stopped)
  {
    var w := AfterPlugins(r, plugins);
    var n := ResolvedName(plugins[p].calls[i].name, plugins[p].calls[i].component);
    PluginComponentsRegistered(r, plugins, p, i);
    var k :| 0 <= k < |w.components| && w.components[k].name == n;
    TraceNames(Shutdown, plugins, w, env, Started);
    TraceNames(Shutdown, plugins, w, env, Stopped);
    var ns := NamesOf(w.components);
    NamesOfAt(w.components);
    assert ns[k] == n;
    ReverseAt(ns);
    assert Reverse(ns)[|ns| - 1 - k] == n;
  }
}
