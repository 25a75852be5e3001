/** Reloading while readers call Load: every interleaving of the reload's steps, under its write lock, with
    any number of readers. Each source is read at its own moment. */
module ConfigReload {
  import opened Common
  import opened ConfigLoader
  import opened EnvKeys

  /** What a loader is configured with: defaults, number of files, environment prefix. */
  datatype Setup = Setup(defaults: Option<Config>, files: nat, envPrefix: string)

  /** The write lock is held exactly while a reload is under way; `done` files have been merged. */
  datatype Phase = Free | Reloading(done: nat)

  datatype State = State(k: Config, oldK: Config, phase: Phase)

  datatype Event =
    | Begin                                     // lock, keep the old configuration, start afresh with the defaults
    | ReadFile(file: File)                      // merge the next file, or roll back and unlock
    | Finish(environ: seq<(string, string)>)    // merge the environment and unlock
    | Load(value: Config)                       // a reader, under the read lock

  function Apply(c: Setup, s: State, e: Event): Option<State> {
    match e
    case Begin =>
      if s.phase.Free? then Some(State(MergeAll(map[], DefaultLayers(c.defaults)), s.k, Reloading(0))) else None
    case ReadFile(file) =>
      if !s.phase.Reloading? || s.phase.done >= c.files then None
      else if file.Parsed? then Some(State(Merge(s.k, file.leaves), s.oldK, Reloading(s.phase.done + 1)))
      else Some(State(s.oldK, s.oldK, Free))
    case Finish(environ) =>
      if s.phase != Reloading(c.files) then None
      else Some(State(MergeAll(s.k, EnvLayers(c.envPrefix, environ)), s.oldK, Free))
    case Load(value) => if s.phase.Free? && value == s.k then Some(s) else None
  }

  function Run(c: Setup, s: State, es: seq<Event>): Option<State> {
    if es == [] then Some(s)
    else match Run(c, s, es[..|es|-1])
      case None => None
      case Some(t) => Apply(c, t, es[|es|-1])
  }

  // ---------------------------------------------------------------- what was loaded, read off the events

  /** The files merged since the last Begin, while its reload is under way. */
  function Gathered(es: seq<Event>): Option<seq<File>> {
    if es == [] then None
    else
      var before := Gathered(es[..|es|-1]);
      match es[|es|-1]
      case Begin => Some([])
      case ReadFile(file) => if before.Some? && file.Parsed? then Some(before.value + [file]) else None
      case Finish(_) => None
      case Load(_) => before
  }

  datatype Loaded = Loaded(files: seq<File>, environ: seq<(string, string)>)

  /** What the last reload that reached its end had read. */
  function LastComplete(es: seq<Event>): Option<Loaded> {
    if es == [] then None
    else
      var init := es[..|es|-1];
      match es[|es|-1]
      case Finish(environ) =>
        (match Gathered(init) case Some(files) => Some(Loaded(files, environ)) case None => LastComplete(init))
      case _ => LastComplete(init)
  }

  predicate IsComplete(c: Setup, l: Loaded) { |l.files| == c.files && AllParsed(l.files) }

  /** The full layered merge of one load. */
  function FullMerge(c: Setup, l: Loaded): Config
    requires IsComplete(c, l)
  {
    MergeAll(map[], Layers(c.defaults, l.files, c.envPrefix, l.environ))
  }

  /** The configuration in force: the last complete load's, or the initial one. */
  ghost predicate InForce(c: Setup, initial: Config, es: seq<Event>, k: Config) {
    match LastComplete(es)
    case None => k == initial
    case Some(l) => IsComplete(c, l) && k == FullMerge(c, l)
  }

  /** Mid-reload, `k` is the merge of the defaults and the files read so far. */
  ghost predicate Partial(c: Setup, s: State, gathered: Option<seq<File>>) {
    && s.phase.Reloading? && gathered.Some? && AllParsed(gathered.value)
    && s.phase.done == |gathered.value| <= c.files
    && s.k == MergeAll(map[], DefaultLayers(c.defaults) + FileLayers(gathered.value))
  }

  ghost predicate Inv(c: Setup, initial: Config, es: seq<Event>, s: State) {
    if s.phase.Free? then Gathered(es) == None && InForce(c, initial, es, s.k)
    else Partial(c, s, Gathered(es)) && InForce(c, initial, es, s.oldK)
  }

  lemma GatherOne(c: Setup, files: seq<File>, file: File)
    requires AllParsed(files) && file.Parsed?
    ensures var base := DefaultLayers(c.defaults);
            MergeAll(map[], base + FileLayers(files + [file]))
              == Merge(MergeAll(map[], base + FileLayers(files)), file.leaves)
  {
    var base := DefaultLayers(c.defaults) + FileLayers(files);
    assert DefaultLayers(c.defaults) + FileLayers(files + [file]) == base + [file.leaves];
    MergeOneMore(map[], base, file.leaves);
  }

  lemma FinishMerge(c: Setup, files: seq<File>, environ: seq<(string, string)>)
    requires AllParsed(files)
    ensures MergeAll(MergeAll(map[], DefaultLayers(c.defaults) + FileLayers(files)), EnvLayers(c.envPrefix, environ))
         == MergeAll(map[], Layers(c.defaults, files, c.envPrefix, environ))
  {
    var base := DefaultLayers(c.defaults) + FileLayers(files);
    if c.envPrefix == "" {
      assert base + [] == base;
    } else {
      var env := EnvLayer(c.envPrefix, environ);
      MergeOneMore(map[], base, env);
      MergeOneMore(MergeAll(map[], base), [], env);
      assert [] + [env] == [env];
    }
  }

  lemma InvStep(c: Setup, initial: Config, init: seq<Event>, s: State, e: Event)
    requires Inv(c, initial, init, s) && Apply(c, s, e).Some?
    ensures Inv(c, initial, init + [e], Apply(c, s, e).value)
  {
    assert (init + [e])[..|init|] == init;
    match e
    case Begin =>
      assert DefaultLayers(c.defaults) + FileLayers([]) == DefaultLayers(c.defaults);
    case ReadFile(file) =>
      if file.Parsed? { GatherOne(c, Gathered(init).value, file); }
    case Finish(environ) =>
      FinishMerge(c, Gathered(init).value, environ);
    case Load(_) =>
  }

  lemma {:induction false} InvAlways(c: Setup, initial: Config, es: seq<Event>)
    requires Run(c, State(initial, initial, Free), es).Some?
    ensures Inv(c, initial, es, Run(c, State(initial, initial, Free), es).value)
  {
    if es != [] {
      var init := es[..|es|-1];
      InvAlways(c, initial, init);
      InvStep(c, initial, init, Run(c, State(initial, initial, Free), init).value, es[|es|-1]);
      assert init + [es[|es|-1]] == es;
    }
  }

  lemma {:induction false} PrefixRuns(c: Setup, s: State, es: seq<Event>, i: nat)
    requires i <= |es| && Run(c, s, es).Some?
    ensures Run(c, s, es[..i]).Some?
  {
    if i < |es| {
      PrefixRuns(c, s, es[..|es|-1], i);
      assert es[..|es|-1][..i] == es[..i];
    } else {
      assert es[..i] == es;
    }
  }

  /** In every interleaving, what a reader gets is the full layered merge of the last reload that read every
      file, or the initial configuration when there was none: never a partial merge, never a failed reload. */
  lemma ReadersSeeCompleteLoads(c: Setup, initial: Config, es: seq<Event>, i: nat)
    requires Run(c, State(initial, initial, Free), es).Some?
    requires i < |es| && es[i].Load?
    ensures InForce(c, initial, es[..i], es[i].value)
  {
    var start := State(initial, initial, Free);
    PrefixRuns(c, start, es, i);
    PrefixRuns(c, start, es, i + 1);
    assert es[..i+1][..i] == es[..i];
    InvAlways(c, initial, es[..i]);
  }

  // ---------------------------------------------------------------- the sequential reload is one such run

  function Steps(files: seq<File>, environ: seq<(string, string)>): seq<Event> {
    if AllParsed(files) then [Begin] + Reads(files) + [Finish(environ)]
    else [Begin] + Reads(files[..FirstBad(files) + 1])
  }

  function Reads(files: seq<File>): seq<Event> {
    seq(|files|, i requires 0 <= i < |files| => ReadFile(files[i]))
  }

  /** The steps of one reload, run without interruption, end where the loader's own reload method does. */
  lemma ReloadIsARun(c: Setup, k: Config, files: seq<File>, environ: seq<(string, string)>)
    requires |files| == c.files
    ensures var end := Run(c, State(k, k, Free), Steps(files, environ));
            end.Some? && end.value.phase.Free? && end.value.k == Reloaded(k, c.defaults, files, c.envPrefix, environ)
  {
    if AllParsed(files) {
      CompleteReloadRuns(c, k, files, environ);
    } else {
      FailedReloadRuns(c, k, files);
    }
  }

  lemma RunOneMore(c: Setup, s: State, es: seq<Event>, e: Event)
    requires Run(c, s, es).Some?
    ensures Run(c, s, es + [e]) == Apply(c, Run(c, s, es).value, e)
  {
    assert (es + [e])[..|es|] == es;
  }

  lemma CompleteReloadRuns(c: Setup, k: Config, files: seq<File>, environ: seq<(string, string)>)
    requires |files| == c.files && AllParsed(files)
    ensures Run(c, State(k, k, Free), [Begin] + Reads(files) + [Finish(environ)])
         == Some(State(MergeAll(map[], Layers(c.defaults, files, c.envPrefix, environ)), k, Free))
  {
    ReadsRun(c, State(k, k, Free), files);
    RunOneMore(c, State(k, k, Free), [Begin] + Reads(files), Finish(environ));
    FinishMerge(c, files, environ);
  }

  lemma FailedReloadRuns(c: Setup, k: Config, files: seq<File>)
    requires |files| == c.files && !AllParsed(files)
    ensures Run(c, State(k, k, Free), [Begin] + Reads(files[..FirstBad(files) + 1])) == Some(State(k, k, Free))
  {
    var n := FirstBad(files);
    ReadsRun(c, State(k, k, Free), files[..n]);
    RunOneMore(c, State(k, k, Free), [Begin] + Reads(files[..n]), ReadFile(files[n]));
    OneMoreRead(files, n);
  }

  lemma OneMoreRead(files: seq<File>, n: nat)
    requires n < |files|
    ensures [Begin] + Reads(files[..n+1]) == [Begin] + Reads(files[..n]) + [ReadFile(files[n])]
  {
    assert Reads(files[..n+1]) == Reads(files[..n]) + [ReadFile(files[n])];
  }

  lemma {:induction false} ReadsRun(c: Setup, start: State, files: seq<File>)
    requires start.phase.Free? && AllParsed(files) && |files| <= c.files
    ensures Run(c, start, [Begin] + Reads(files))
         == Some(State(MergeAll(map[], DefaultLayers(c.defaults) + FileLayers(files)), start.k, Reloading(|files|)))
  {
    if files == [] {
      assert [Begin] + Reads(files) == [Begin];
      assert [Begin][..0] == [];
      assert DefaultLayers(c.defaults) + FileLayers(files) == DefaultLayers(c.defaults);
    } else {
      var n := |files| - 1;
      ReadsRun(c, start, files[..n]);
      RunOneMore(c, start, [Begin] + Reads(files[..n]), ReadFile(files[n]));
      OneMoreRead(files, n);
      GatherOne(c, files[..n], files[n]);
      assert files[..n] + [files[n]] == files && files[..n+1] == files;
    }
  }

  // ---------------------------------------------------------------- when the lock is needed

  /** Between two steps of a reload, the field holds something else than the configuration in force. */
  ghost predicate Torn(c: Setup, initial: Config, es: seq<Event>) {
    var end := Run(c, State(initial, initial, Free), es);
    end.Some? && end.value.phase.Reloading? && !InForce(c, initial, es, end.value.k)
  }

  function DefaultsOnly(c: Setup): Config { MergeAll(map[], DefaultLayers(c.defaults)) }

  /** Without the lock some reader could see a configuration that is not in force, unless the loader has nothing
      but its defaults to load and starts with them. */
  lemma LockNeededIff(c: Setup, initial: Config)
    ensures (exists es: seq<Event> :: Torn(c, initial, es))
       <==> c.files > 0 || c.envPrefix != "" || initial != DefaultsOnly(c)
  {
    if initial != DefaultsOnly(c) {
      OneStep(c, initial);
      assert Torn(c, initial, [] + [Begin]);
    } else if c.files > 0 {
      var es := TornByFile(c);
    } else if c.envPrefix != "" {
      var es := TornByEnvironment(c);
    } else {
      forall es: seq<Event> ensures !Torn(c, initial, es) {
        if Run(c, State(initial, initial, Free), es).Some? {
          InvAlways(c, initial, es);
          NothingButDefaults(c, initial, es);
        }
      }
    }
  }

  lemma OneStep(c: Setup, initial: Config)
    ensures Run(c, State(initial, initial, Free), [] + [Begin]) == Some(State(DefaultsOnly(c), initial, Reloading(0)))
    ensures LastComplete([] + [Begin]) == None && Gathered([] + [Begin]) == Some([])
  {
    RunOneMore(c, State(initial, initial, Free), [], Begin);
    assert ([] + [Begin])[..0] == [];
  }

  /** A value for key "a" that the defaults do not give it. */
  function Other(c: Setup): string {
    if "a" in DefaultsOnly(c) then DefaultsOnly(c)["a"] + "x" else ""
  }

  lemma OtherDiffers(c: Setup, layer: Config)
    requires layer == map["a" := Other(c)]
    ensures Merge(DefaultsOnly(c), layer) != DefaultsOnly(c)
  {
    assert Merge(DefaultsOnly(c), layer)["a"] == Other(c);
    assert "a" in DefaultsOnly(c) ==> |Other(c)| == |DefaultsOnly(c)["a"]| + 1;
  }

  lemma TornByFile(c: Setup) returns (es: seq<Event>)
    requires c.files > 0
    ensures Torn(c, DefaultsOnly(c), es)
  {
    var start, layer := State(DefaultsOnly(c), DefaultsOnly(c), Free), map["a" := Other(c)];
    OneStep(c, DefaultsOnly(c));
    es := [] + [Begin];
    RunOneMore(c, start, es, ReadFile(Parsed(layer)));
    OtherDiffers(c, layer);
    assert (es + [ReadFile(Parsed(layer))])[..1] == es;
    es := es + [ReadFile(Parsed(layer))];
  }

  lemma OneVariable(envPrefix: string, value: string)
    ensures EnvLayer(envPrefix, [(Prefix(envPrefix) + "a", value)]) == map["a" := value]
  {
    var prefix := Prefix(envPrefix);
    var name := prefix + "a";
    assert name[|prefix|..] == "a" && TrimPrefix(name, prefix) == "a";
    assert Mapped(LowerLetter, "a") == "a" && Dotted("a") == "a";
    var environ := [(name, value)];
    assert environ[..0] == [];
  }

  lemma TornByEnvironment(c: Setup) returns (es: seq<Event>)
    requires c.files == 0 && c.envPrefix != ""
    ensures Torn(c, DefaultsOnly(c), es)
  {
    var start, layer := State(DefaultsOnly(c), DefaultsOnly(c), Free), map["a" := Other(c)];
    var environ := [(Prefix(c.envPrefix) + "a", Other(c))];
    OneStep(c, DefaultsOnly(c));
    es := [] + [Begin];
    RunOneMore(c, start, es, Finish(environ));
    OneVariable(c.envPrefix, Other(c));
    MergeOneMore(DefaultsOnly(c), [], layer);
    assert [] + [layer] == [layer];
    OtherDiffers(c, layer);
    var loaded := es + [Finish(environ)];
    InvAlways(c, DefaultsOnly(c), loaded);
    RunOneMore(c, start, loaded, Begin);
    assert (loaded + [Begin])[..|loaded|] == loaded && loaded[..1] == es;
    es := loaded + [Begin];
  }

  lemma NothingButDefaults(c: Setup, initial: Config, es: seq<Event>)
    requires c.files == 0 && c.envPrefix == "" && initial == DefaultsOnly(c)
    requires Run(c, State(initial, initial, Free), es).Some?
    requires Inv(c, initial, es, Run(c, State(initial, initial, Free), es).value)
    ensures !Torn(c, initial, es)
  {
    var defaults := DefaultLayers(c.defaults);
    assert defaults + [] == defaults && (defaults + []) + [] == defaults;
    var s := Run(c, State(initial, initial, Free), es).value;
    if s.phase.Reloading? {
      assert FileLayers(Gathered(es).value) == [];
      match LastComplete(es)
      case None =>
      case Some(l) => assert FileLayers(l.files) == [] && Layers(c.defaults, l.files, "", l.environ) == defaults;
    }
  }
}
