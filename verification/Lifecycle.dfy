/** The application lifecycle of pkg/platform: registration, and Run with its four return paths. */
module Lifecycle {
  import opened Common

  // ---------------------------------------------------------------- errors

  datatype Error = Leaf(msg: string) | Wrap(context: string, cause: Error) | Join(errs: seq<Error>)

  /** errors.Join: nil arguments are dropped, and nothing but nil joins to nil. */
  function JoinAll(errs: seq<Option<Error>>): Option<Error> {
    var some := Present(errs);
    if some == [] then None else Some(Join(some))
  }

  function Present(errs: seq<Option<Error>>): seq<Error> {
    if errs == [] then []
    else (if errs[0].Some? then [errs[0].value] else []) + Present(errs[1..])
  }

  function Given(errs: seq<Error>): seq<Option<Error>> {
    seq(|errs|, i requires 0 <= i < |errs| => Some(errs[i]))
  }

  // ---------------------------------------------------------------- the application

  type HookId = nat

  /** `declared` is the name of a component that implements Named. */
  datatype Component = Component(id: nat, declared: Option<string>, healthChecker: bool)

  datatype NamedComponent = NamedComponent(name: string, component: Component)

  /** A call a plugin makes on the application while it is initialised. */
  datatype PluginCall =
    | CallRegister(name: string, component: Component)
    | CallOnBeforeStart(hook: HookId)
    | CallOnAfterStart(hook: HookId)
    | CallOnBeforeStop(hook: HookId)
    | CallOnAfterStop(hook: HookId)

  datatype Plugin = Plugin(name: string, calls: seq<PluginCall>)

  /** The registry the plugins mutate. */
  datatype Registry = Registry(components: seq<NamedComponent>, beforeStart: seq<HookId>, afterStart: seq<HookId>,
                               beforeStop: seq<HookId>, afterStop: seq<HookId>)

  function ResolvedName(name: string, c: Component): string {
    if c.declared.Some? then c.declared.value else name
  }

  /** A component that implements Named goes by its own name, any other by the name given. */
  predicate Resolves(name: string, c: Component, resolved: string) {
    (c.declared.Some? ==> resolved == c.declared.value) && (c.declared.None? ==> resolved == name)
  }

  predicate Registered(components: seq<NamedComponent>, name: string) {
    exists i :: 0 <= i < |components| && components[i].name == name
  }

  ghost predicate UniqueNames(components: seq<NamedComponent>) {
    forall i, j :: 0 <= i < j < |components| ==> components[i].name != components[j].name
  }

  function AfterCall(r: Registry, call: PluginCall): Registry {
    match call
    case CallRegister(name, c) =>
      if Registered(r.components, ResolvedName(name, c)) then r
      else r.(components := r.components + [NamedComponent(ResolvedName(name, c), c)])
    case CallOnBeforeStart(h) => r.(beforeStart := r.beforeStart + [h])
    case CallOnAfterStart(h) => r.(afterStart := r.afterStart + [h])
    case CallOnBeforeStop(h) => r.(beforeStop := r.beforeStop + [h])
    case CallOnAfterStop(h) => r.(afterStop := r.afterStop + [h])
  }

  function AfterCalls(r: Registry, calls: seq<PluginCall>): Registry {
    if calls == [] then r else AfterCall(AfterCalls(r, calls[..|calls|-1]), calls[|calls|-1])
  }

  function AfterPlugins(r: Registry, plugins: seq<Plugin>): Registry {
    if plugins == [] then r else AfterCalls(AfterPlugins(r, plugins[..|plugins|-1]), plugins[|plugins|-1].calls)
  }

  // ---------------------------------------------------------------- one run

  datatype Event =
    | Init(plugin: string)
    | BeforeStart(hook: HookId, name: string)
    | Start(name: string, ok: bool)
    | AfterStart(hook: HookId)
    | BeforeStop(hook: HookId)
    | Stop(name: string)
    | AfterStop(hook: HookId, err: Option<Error>)
    | Close(plugin: string)

  /** Every foreign outcome of a run, by position: plugin, (component, hook), component. */
  datatype Env = Env(initErr: nat -> Option<string>, hookErr: (nat, nat) -> Option<string>,
                     startErr: nat -> Option<string>, stopErr: nat -> Option<string>, closeErr: nat -> Option<string>)

  /** Where a run ends. */
  datatype Path =
    | InitFailed(plugin: nat)
    | HookFailed(component: nat, hook: nat)
    | StartFailed(component: nat)
    | Shutdown

  function Inits(plugins: seq<Plugin>): seq<Event> {
    seq(|plugins|, i requires 0 <= i < |plugins| => Init(plugins[i].name))
  }

  function Hooks(hooks: seq<HookId>, name: string): seq<Event> {
    seq(|hooks|, j requires 0 <= j < |hooks| => BeforeStart(hooks[j], name))
  }

  function StartAttempt(hooks: seq<HookId>, name: string, ok: bool): seq<Event> {
    Hooks(hooks, name) + [Start(name, ok)]
  }

  function Starts(cs: seq<NamedComponent>, hooks: seq<HookId>): seq<Event> {
    if cs == [] then []
    else Starts(cs[..|cs|-1], hooks) + StartAttempt(hooks, cs[|cs|-1].name, true)
  }

  /** Stops of the started components, last one first. */
  function Stops(cs: seq<NamedComponent>): seq<Event> {
    if cs == [] then [] else [Stop(cs[|cs|-1].name)] + Stops(cs[..|cs|-1])
  }

  function Failed(context: string, outcome: Option<string>): seq<Error> {
    if outcome.Some? then [Wrap(context, Leaf(outcome.value))] else []
  }

  function StopErrors(cs: seq<NamedComponent>, env: Env): seq<Error> {
    if cs == [] then []
    else
      Failed("stop " + cs[|cs|-1].name, env.stopErr(|cs| - 1)) + StopErrors(cs[..|cs|-1], env)
  }

  function Closes(plugins: seq<Plugin>): seq<Event> {
    if plugins == [] then [] else [Close(plugins[|plugins|-1].name)] + Closes(plugins[..|plugins|-1])
  }

  function CloseErrors(plugins: seq<Plugin>, env: Env): seq<Error> {
    if plugins == [] then []
    else
      Failed("plugin close " + plugins[|plugins|-1].name, env.closeErr(|plugins| - 1))
        + CloseErrors(plugins[..|plugins|-1], env)
  }

  function AfterStarts(hooks: seq<HookId>): seq<Event> {
    seq(|hooks|, j requires 0 <= j < |hooks| => AfterStart(hooks[j]))
  }

  function BeforeStops(hooks: seq<HookId>): seq<Event> {
    seq(|hooks|, j requires 0 <= j < |hooks| => BeforeStop(hooks[j]))
  }

  function AfterStops(hooks: seq<HookId>, err: Option<Error>): seq<Event> {
    seq(|hooks|, j requires 0 <= j < |hooks| => AfterStop(hooks[j], err))
  }

  /** The path is the first failure there is, looking at plugins, then components in order and for
      each its hooks before its own start. */
  ghost predicate Takes(path: Path, plugins: seq<Plugin>, r: Registry, env: Env) {
    match path
    case InitFailed(p) =>
      p < |plugins| && env.initErr(p).Some? && forall i :: 0 <= i < p ==> env.initErr(i).None?
    case HookFailed(c, h) =>
      && InitsFine(plugins, env) && c < |r.components| && ComponentsStart(r, env, c)
      && h < |r.beforeStart| && env.hookErr(c, h).Some? && forall j :: 0 <= j < h ==> env.hookErr(c, j).None?
    case StartFailed(c) =>
      && InitsFine(plugins, env) && c < |r.components| && ComponentsStart(r, env, c)
      && (forall j :: 0 <= j < |r.beforeStart| ==> env.hookErr(c, j).None?) && env.startErr(c).Some?
    case Shutdown => InitsFine(plugins, env) && ComponentsStart(r, env, |r.components|)
  }

  ghost predicate InitsFine(plugins: seq<Plugin>, env: Env) {
    forall i :: 0 <= i < |plugins| ==> env.initErr(i).None?
  }

  /** The first `n` components start, all their hooks passing. */
  ghost predicate ComponentsStart(r: Registry, env: Env, n: nat) {
    forall c :: 0 <= c < n ==> env.startErr(c).None? && forall j :: 0 <= j < |r.beforeStart| ==> env.hookErr(c, j).None?
  }

  /** The plugins a path has tried to initialise. */
  function InitialisedBy(path: Path, plugins: seq<Plugin>): seq<Plugin> {
    if path.InitFailed? && path.plugin < |plugins| then plugins[..path.plugin+1] else plugins
  }

  /** The registry the run works from: what the plugins leave behind, the failing one included. */
  function Working(path: Path, plugins: seq<Plugin>, r: Registry): Registry {
    AfterPlugins(r, InitialisedBy(path, plugins))
  }

  /** The components a path has started. */
  function StartedBy(path: Path, cs: seq<NamedComponent>): seq<NamedComponent> {
    match path
    case InitFailed(_) => []
    case HookFailed(c, _) => if c <= |cs| then cs[..c] else cs
    case StartFailed(c) => if c <= |cs| then cs[..c] else cs
    case Shutdown => cs
  }

  /** What happens between the last successful Start and the first Stop. */
  ghost function Middle(path: Path, r: Registry): seq<Event> {
    match path
    case InitFailed(_) => []
    case HookFailed(c, h) =>
      if c < |r.components| && h < |r.beforeStart| then Hooks(r.beforeStart[..h+1], r.components[c].name) else []
    case StartFailed(c) =>
      if c < |r.components| then StartAttempt(r.beforeStart, r.components[c].name, false) else []
    case Shutdown => AfterStarts(r.afterStart) + BeforeStops(r.beforeStop)
  }

  /** What happens after the last Stop. */
  ghost function Ending(path: Path, plugins: seq<Plugin>, r: Registry, stopErr: Option<Error>): seq<Event> {
    if path.Shutdown? then AfterStops(r.afterStop, stopErr) + Closes(plugins) else []
  }

  ghost function StopErrorOf(path: Path, r: Registry, env: Env): Option<Error> {
    JoinAll(Given(StopErrors(StartedBy(path, r.components), env)))
  }

  /** The events of a run. */
  ghost function TraceOf(path: Path, plugins: seq<Plugin>, r: Registry, env: Env): seq<Event>
    requires Takes(path, plugins, r, env)
  {
    var started := StartedBy(path, r.components);
    Inits(InitialisedBy(path, plugins)) + Starts(started, r.beforeStart) + Middle(path, r) + Stops(started)
    + Ending(path, plugins, r, StopErrorOf(path, r, env))
  }

  ghost function ResultOf(path: Path, plugins: seq<Plugin>, r: Registry, env: Env): Option<Error>
    requires Takes(path, plugins, r, env)
  {
    var stopErr := StopErrorOf(path, r, env);
    match path
    case InitFailed(p) => Some(Wrap("plugin init " + plugins[p].name, Leaf(env.initErr(p).value)))
    case HookFailed(c, h) =>
      JoinAll([Some(Wrap("before start hook " + r.components[c].name, Leaf(env.hookErr(c, h).value))), stopErr])
    case StartFailed(c) =>
      JoinAll([Some(Wrap("start " + r.components[c].name, Leaf(env.startErr(c).value))), stopErr])
    case Shutdown => JoinAll([stopErr, JoinAll(Given(CloseErrors(plugins, env)))])
  }

  lemma InitFailedTrace(p: nat, plugins: seq<Plugin>, r: Registry, env: Env)
    requires Takes(InitFailed(p), plugins, r, env)
    ensures TraceOf(InitFailed(p), plugins, r, env) == Inits(plugins[..p+1])
  {
    var inits := Inits(plugins[..p+1]);
    assert inits + [] == inits;
  }

  lemma AbortedTrace(path: Path, plugins: seq<Plugin>, r: Registry, env: Env)
    requires Takes(path, plugins, r, env) && (path.HookFailed? || path.StartFailed?)
    ensures var started := StartedBy(path, r.components);
            TraceOf(path, plugins, r, env)
            == Inits(plugins) + Starts(started, r.beforeStart) + Middle(path, r) + Stops(started)
  {
    var started := StartedBy(path, r.components);
    var trace := Inits(plugins) + Starts(started, r.beforeStart) + Middle(path, r) + Stops(started);
    assert trace + [] == trace;
  }

  lemma OneMorePlugin(r: Registry, ps: seq<Plugin>, i: nat)
    requires i < |ps|
    ensures AfterPlugins(r, ps[..i+1]) == AfterCalls(AfterPlugins(r, ps[..i]), ps[i].calls)
    ensures Inits(ps[..i+1]) == Inits(ps[..i]) + [Init(ps[i].name)]
  {
    assert ps[..i+1][..i] == ps[..i];
  }

  class App {
    var components: seq<NamedComponent>
    var plugins: seq<Plugin>
    var beforeStart: seq<HookId>
    var afterStart: seq<HookId>
    var beforeStop: seq<HookId>
    var afterStop: seq<HookId>

    ghost predicate Valid() reads this { UniqueNames(components) }

    function Snapshot(): Registry reads this {
      Registry(components, beforeStart, afterStart, beforeStop, afterStop)
    }

    constructor ()
      ensures Valid() && Snapshot() == Registry([], [], [], [], []) && plugins == []
    {
      components, plugins, beforeStart, afterStart, beforeStop, afterStop := [], [], [], [], [], [];
    }

    method Register(name: string, c: Component) returns (err: bool)
      requires Valid()
      modifies this
      ensures Valid() && plugins == old(plugins)
      ensures err <==> exists i :: 0 <= i < |old(components)| && Resolves(name, c, old(components)[i].name)
      ensures err ==> Snapshot() == old(Snapshot())
      ensures !err ==> |components| == |old(components)| + 1 && components[..|old(components)|] == old(components)
      ensures !err ==> var nc := components[|components|-1]; nc.component == c && Resolves(name, c, nc.name)
      ensures Snapshot() == AfterCall(old(Snapshot()), CallRegister(name, c))
    {
      var resolved := ResolvedName(name, c);
      for i := 0 to |components|
        invariant forall j :: 0 <= j < i ==> components[j].name != resolved
      {
        if components[i].name == resolved { return true; }
      }
      components := components + [NamedComponent(resolved, c)];
      return false;
    }

    method Use(more: seq<Plugin>)
      modifies this
      ensures plugins == old(plugins) + more && Snapshot() == old(Snapshot())
    {
      plugins := plugins + more;
    }

    /** The component registered under `name`, if there is one. */
    method Lookup(name: string) returns (c: Option<Component>)
      requires Valid()
      ensures c.Some? <==> Registered(components, name)
      ensures forall i :: 0 <= i < |components| && components[i].name == name ==> c == Some(components[i].component)
    {
      for i := 0 to |components|
        invariant forall j :: 0 <= j < i ==> components[j].name != name
      {
        if components[i].name == name { return Some(components[i].component); }
      }
      return None;
    }

    method HealthCheckers() returns (checkers: map<string, Component>)
      requires Valid()
      ensures forall i :: 0 <= i < |components| ==>
        (components[i].name in checkers <==> components[i].component.healthChecker)
        && (components[i].component.healthChecker ==> checkers[components[i].name] == components[i].component)
      ensures forall n :: n in checkers ==> Registered(components, n)
    {
      checkers := map[];
      for i := 0 to |components|
        invariant forall j :: 0 <= j < i ==>
          (components[j].name in checkers <==> components[j].component.healthChecker)
          && (components[j].component.healthChecker ==> checkers[components[j].name] == components[j].component)
        invariant forall n :: n in checkers ==> exists j :: 0 <= j < i && components[j].name == n
      {
        var nc := components[i];
        if nc.component.healthChecker {
          checkers := checkers[nc.name := nc.component];
        }
      }
    }

    method Perform(call: PluginCall)
      requires Valid()
      modifies this
      ensures Valid() && plugins == old(plugins) && Snapshot() == AfterCall(old(Snapshot()), call)
    {
      match call {
        case CallRegister(name, c) => var _ := Register(name, c);
        case CallOnBeforeStart(h) => beforeStart := beforeStart + [h];
        case CallOnAfterStart(h) => afterStart := afterStart + [h];
        case CallOnBeforeStop(h) => beforeStop := beforeStop + [h];
        case CallOnAfterStop(h) => afterStop := afterStop + [h];
      }
    }

    method InitPlugin(p: Plugin)
      requires Valid()
      modifies this
      ensures Valid() && plugins == old(plugins) && Snapshot() == AfterCalls(old(Snapshot()), p.calls)
    {
      ghost var before := Snapshot();
      for i := 0 to |p.calls|
        invariant Valid() && plugins == old(plugins) && Snapshot() == AfterCalls(before, p.calls[..i])
      {
        Perform(p.calls[i]);
        assert p.calls[..i+1][..i] == p.calls[..i];
      }
      assert p.calls[..|p.calls|] == p.calls;
    }

    /** Initialise the plugins in order until one fails. */
    method InitPlugins(ps: seq<Plugin>, env: Env) returns (failed: Option<nat>, trace: seq<Event>)
      requires Valid()
      modifies this
      ensures Valid() && plugins == old(plugins)
      ensures failed.None? ==>
        InitsFine(ps, env) && Snapshot() == AfterPlugins(old(Snapshot()), ps) && trace == Inits(ps)
      ensures failed.Some? ==>
        var p := failed.value;
        && p < |ps| && env.initErr(p).Some? && (forall i :: 0 <= i < p ==> env.initErr(i).None?)
        && Snapshot() == AfterPlugins(old(Snapshot()), ps[..p+1]) && trace == Inits(ps[..p+1])
    {
      trace := [];
      ghost var before := Snapshot();
      for i := 0 to |ps|
        invariant Valid() && plugins == old(plugins) && Snapshot() == AfterPlugins(before, ps[..i])
        invariant trace == Inits(ps[..i]) && forall j :: 0 <= j < i ==> env.initErr(j).None?
      {
        InitPlugin(ps[i]);
        trace := trace + [Init(ps[i].name)];
        OneMorePlugin(before, ps, i);
        if env.initErr(i).Some? { return Some(i), trace; }
      }
      assert ps[..|ps|] == ps;
      return None, trace;
    }

    method Run(env: Env) returns (result: Option<Error>, trace: seq<Event>, path: Path)
      requires Valid()
      modifies this
      ensures Valid() && plugins == old(plugins)
      ensures Snapshot() == Working(path, plugins, old(Snapshot()))
      ensures Takes(path, plugins, Snapshot(), env)
      ensures trace == TraceOf(path, plugins, Snapshot(), env)
      ensures result == ResultOf(path, plugins, Snapshot(), env)
    {
      var ps := plugins;
      var failed, inits;
      failed, inits := InitPlugins(ps, env);
      if failed.Some? {
        path := InitFailed(failed.value);
        InitFailedTrace(failed.value, ps, Snapshot(), env);
        return Some(Wrap("plugin init " + ps[failed.value].name, Leaf(env.initErr(failed.value).value))), inits, path;
      }
      result, trace, path := RunInitialised(Snapshot(), ps, env, inits);
    }
  }

  /** Steps 2-11, on the second snapshot: all plugins have been initialised. */
  method RunInitialised(r: Registry, ps: seq<Plugin>, env: Env, inits: seq<Event>)
    returns (result: Option<Error>, trace: seq<Event>, path: Path)
    requires InitsFine(ps, env) && inits == Inits(ps)
    ensures Takes(path, ps, r, env) && !path.InitFailed?
    ensures trace == TraceOf(path, ps, r, env) && result == ResultOf(path, ps, r, env)
  {
    var aborted, starts, attempt;
    aborted, starts, attempt, path := StartComponents(r, env, ps);
    trace := inits + starts;
    if aborted.Some? {
      var stopErr, stops := StopStarted(r.components[..aborted.value.0], env);
      AbortedTrace(path, ps, r, env);
      return JoinAll([Some(aborted.value.1), stopErr]), trace + attempt + stops, path;
    }
    result, trace := Shut(r, ps, env, trace);
  }

  /** Steps 2-3: hooks and starts in order, until one fails. `aborted` holds the number of started
      components and the error. */
  method StartComponents(r: Registry, env: Env, ghost plugins: seq<Plugin>)
    returns (aborted: Option<(nat, Error)>, trace: seq<Event>, attempt: seq<Event>, path: Path)
    requires InitsFine(plugins, env)
    ensures Takes(path, plugins, r, env) && !path.InitFailed?
    ensures aborted.None? <==> path.Shutdown?
    ensures trace == Starts(StartedBy(path, r.components), r.beforeStart)
    ensures aborted.Some? ==>
      aborted.value.0 <= |r.components| && StartedBy(path, r.components) == r.components[..aborted.value.0]
    ensures path.HookFailed? ==>
      && aborted.value.1 == Wrap("before start hook " + r.components[path.component].name,
                                 Leaf(env.hookErr(path.component, path.hook).value))
      && attempt == Hooks(r.beforeStart[..path.hook+1], r.components[path.component].name)
    ensures path.StartFailed? ==>
      && aborted.value.1 == Wrap("start " + r.components[path.component].name, Leaf(env.startErr(path.component).value))
      && attempt == StartAttempt(r.beforeStart, r.components[path.component].name, false)
  {
    trace, attempt, path := [], [], Shutdown;
    for c := 0 to |r.components|
      invariant trace == Starts(r.components[..c], r.beforeStart) && ComponentsStart(r, env, c)
    {
      var nc := r.components[c];
      var failedHook, calls := CallHooks(r.beforeStart, nc.name, c, env);
      if failedHook.Some? {
        path := HookFailed(c, failedHook.value);
        var err := Wrap("before start hook " + nc.name, Leaf(env.hookErr(c, failedHook.value).value));
        return Some((c, err)), trace, calls, path;
      }
      match env.startErr(c) {
        case Some(e) =>
          path := StartFailed(c);
          return Some((c, Wrap("start " + nc.name, Leaf(e)))), trace, calls + [Start(nc.name, false)], path;
        case None =>
      }
      trace := trace + (calls + [Start(nc.name, true)]);
      OneMoreComponent(r, env, c);
    }
    assert r.components[..|r.components|] == r.components;
    return None, trace, attempt, path;
  }

  lemma OneMoreComponent(r: Registry, env: Env, c: nat)
    requires c < |r.components| && ComponentsStart(r, env, c) && env.startErr(c).None?
    requires forall j :: 0 <= j < |r.beforeStart| ==> env.hookErr(c, j).None?
    ensures ComponentsStart(r, env, c + 1)
    ensures Starts(r.components[..c+1], r.beforeStart) ==
            Starts(r.components[..c], r.beforeStart) + StartAttempt(r.beforeStart, r.components[c].name, true)
  {
    assert r.components[..c+1][..c] == r.components[..c];
  }

  method CallHooks(hooks: seq<HookId>, name: string, c: nat, env: Env) returns (failed: Option<nat>, trace: seq<Event>)
    ensures failed.None? ==> trace == Hooks(hooks, name) && forall j :: 0 <= j < |hooks| ==> env.hookErr(c, j).None?
    ensures failed.Some? ==>
      && failed.value < |hooks| && env.hookErr(c, failed.value).Some?
      && (forall j :: 0 <= j < failed.value ==> env.hookErr(c, j).None?)
      && trace == Hooks(hooks[..failed.value+1], name)
  {
    trace := [];
    for j := 0 to |hooks|
      invariant trace == Hooks(hooks[..j], name) && forall k :: 0 <= k < j ==> env.hookErr(c, k).None?
    {
      trace := trace + [BeforeStart(hooks[j], name)];
      if env.hookErr(c, j).Some? { return Some(j), trace; }
    }
    return None, trace;
  }

  /** Stop the started components in reverse, collecting every error. */
  method StopStarted(started: seq<NamedComponent>, env: Env) returns (err: Option<Error>, trace: seq<Event>)
    ensures err == JoinAll(Given(StopErrors(started, env))) && trace == Stops(started)
  {
    var errs: seq<Error> := [];
    trace := [];
    var i := |started|;
    assert started[..i] == started;
    while i > 0
      invariant 0 <= i <= |started|
      invariant Stops(started) == trace + Stops(started[..i])
      invariant StopErrors(started, env) == errs + StopErrors(started[..i], env)
    {
      i := i - 1;
      assert started[..i+1][..i] == started[..i];
      Associative(trace, [Stop(started[i].name)], Stops(started[..i]));
      trace := trace + [Stop(started[i].name)];
      Associative(errs, Failed("stop " + started[i].name, env.stopErr(i)), StopErrors(started[..i], env));
      errs := errs + Failed("stop " + started[i].name, env.stopErr(i));
    }
    assert trace + [] == trace && errs + [] == errs;
    err := JoinAll(Given(errs));
  }

  method ClosePlugins(ps: seq<Plugin>, env: Env) returns (err: Option<Error>, trace: seq<Event>)
    ensures err == JoinAll(Given(CloseErrors(ps, env))) && trace == Closes(ps)
  {
    var errs: seq<Error> := [];
    trace := [];
    var i := |ps|;
    assert ps[..i] == ps;
    while i > 0
      invariant 0 <= i <= |ps|
      invariant Closes(ps) == trace + Closes(ps[..i])
      invariant CloseErrors(ps, env) == errs + CloseErrors(ps[..i], env)
    {
      i := i - 1;
      assert ps[..i+1][..i] == ps[..i];
      Associative(trace, [Close(ps[i].name)], Closes(ps[..i]));
      trace := trace + [Close(ps[i].name)];
      Associative(errs, Failed("plugin close " + ps[i].name, env.closeErr(i)), CloseErrors(ps[..i], env));
      errs := errs + Failed("plugin close " + ps[i].name, env.closeErr(i));
    }
    assert trace + [] == trace && errs + [] == errs;
    err := JoinAll(Given(errs));
  }

  method CallAfterStart(hooks: seq<HookId>) returns (trace: seq<Event>)
    ensures trace == AfterStarts(hooks)
  {
    trace := [];
    for j := 0 to |hooks|
      invariant trace == AfterStarts(hooks[..j])
    {
      trace := trace + [AfterStart(hooks[j])];
    }
    assert hooks[..|hooks|] == hooks;
  }

  method CallBeforeStop(hooks: seq<HookId>) returns (trace: seq<Event>)
    ensures trace == BeforeStops(hooks)
  {
    trace := [];
    for j := 0 to |hooks|
      invariant trace == BeforeStops(hooks[..j])
    {
      trace := trace + [BeforeStop(hooks[j])];
    }
    assert hooks[..|hooks|] == hooks;
  }

  method CallAfterStop(hooks: seq<HookId>, err: Option<Error>) returns (trace: seq<Event>)
    ensures trace == AfterStops(hooks, err)
  {
    trace := [];
    for j := 0 to |hooks|
      invariant trace == AfterStops(hooks[..j], err)
    {
      trace := trace + [AfterStop(hooks[j], err)];
    }
    assert hooks[..|hooks|] == hooks;
  }

  /** Steps 4-11, once every component has started. */
  method Shut(r: Registry, ps: seq<Plugin>, env: Env, before: seq<Event>)
    returns (result: Option<Error>, trace: seq<Event>)
    ensures var stopErr := StopErrorOf(Shutdown, r, env);
            && result == JoinAll([stopErr, JoinAll(Given(CloseErrors(ps, env)))])
            && trace == before + Middle(Shutdown, r) + Stops(r.components) + Ending(Shutdown, ps, r, stopErr)
  {
    var afterStarts := CallAfterStart(r.afterStart);
    var beforeStops := CallBeforeStop(r.beforeStop);
    Associative(before, afterStarts, beforeStops);
    trace := before + afterStarts + beforeStops;
    var stopErr, stops := StopStarted(r.components, env);
    trace := trace + stops;
    var afterStops := CallAfterStop(r.afterStop, stopErr);
    var closeErr, closes := ClosePlugins(ps, env);
    Associative(trace, afterStops, closes);
    trace := trace + afterStops + closes;
    result := JoinAll([stopErr, closeErr]);
  }
}
