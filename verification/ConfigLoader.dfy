/** The layered configuration loader of pkg/config: merge, load, reload with rollback, watch.

    A configuration is kept by its leaves: dotted key to value. */
module ConfigLoader {
  import opened Common
  import opened EnvKeys

  type Config = map<string, string>

  /** What one attempt to read and parse a file gives. */
  datatype File = Unreadable | Parsed(leaves: Config)

  datatype LoadError = FileFailed(path: string)

  // ---------------------------------------------------------------- merging

  /** `a` is `b` or one of the levels above it. */
  predicate Above(a: string, b: string) { a == b || a + "." <= b }

  predicate Clash(a: string, b: string) { Above(a, b) || Above(b, a) }

  predicate Clashes(key: string, layer: Config) {
    exists other :: other in layer && Clash(key, other)
  }

  /** A layer replaces the keys it shares, the subtrees it sets as leaves, and the leaves it sets as subtrees. */
  function Merge(base: Config, layer: Config): Config {
    (map key | key in base && !Clashes(key, layer) :: base[key]) + layer
  }

  function MergeAll(base: Config, layers: seq<Config>): Config {
    if layers == [] then base else Merge(MergeAll(base, layers[..|layers|-1]), layers[|layers|-1])
  }

  lemma MergeOneMore(base: Config, layers: seq<Config>, layer: Config)
    ensures MergeAll(base, layers + [layer]) == Merge(MergeAll(base, layers), layer)
  {
    assert (layers + [layer])[..|layers|] == layers;
  }

  lemma MergeNoMore(base: Config, layers: seq<Config>)
    ensures MergeAll(base, layers + []) == MergeAll(base, layers)
  {
    assert layers + [] == layers;
  }

  /** Layer `i` decides `key`: it sets the key, and no later layer sets it, a level above or a level below. */
  ghost predicate Decides(layers: seq<Config>, i: nat, key: string, value: string) {
    && i < |layers| && key in layers[i] && layers[i][key] == value
    && forall j :: i < j < |layers| ==> !Clashes(key, layers[j])
  }

  ghost predicate Decided(layers: seq<Config>, key: string, value: string) {
    exists i: nat :: Decides(layers, i, key, value)
  }

  /** A key has a value in the merge exactly when some layer decides it: later layers win, and a key that
      no source holds any more is gone. */
  lemma {:induction false} MergePriority(layers: seq<Config>, key: string, value: string)
    ensures var m := MergeAll(map[], layers);
            (key in m && m[key] == value) <==> Decided(layers, key, value)
  {
    if layers != [] {
      var n := |layers| - 1;
      var before, last := layers[..n], layers[n];
      MergePriority(before, key, value);
      if key in last {
        assert Clash(key, key);
        assert last[key] == value ==> Decides(layers, n, key, value);
      } else if Clashes(key, last) {
        assert forall i: nat :: Decides(layers, i, key, value) ==> i == n;
      } else {
        DecidesLater(layers, key, value);
      }
    }
  }

  lemma DecidesLater(layers: seq<Config>, key: string, value: string)
    requires layers != [] && !Clashes(key, layers[|layers|-1]) && key !in layers[|layers|-1]
    ensures Decided(layers, key, value) <==> Decided(layers[..|layers|-1], key, value)
  {
    var n := |layers| - 1;
    var before := layers[..n];
    forall i: nat ensures Decides(layers, i, key, value) <==> Decides(before, i, key, value) {
      if Decides(before, i, key, value) {
        forall j | i < j < |layers| ensures !Clashes(key, layers[j]) {
          if j < n { assert before[j] == layers[j]; }
        }
      }
      if Decides(layers, i, key, value) {
        assert i != n;
        forall j | i < j < n ensures !Clashes(key, before[j]) { assert before[j] == layers[j]; }
      }
    }
  }

  /** No leaf lies above another: the configuration is the leaves of a tree. */
  ghost predicate TreeShaped(c: Config) {
    forall a, b :: a in c && b in c && Clash(a, b) ==> a == b
  }

  /** Merging trees gives a tree. */
  lemma {:induction false} MergeStaysTree(layers: seq<Config>)
    requires forall i :: 0 <= i < |layers| ==> TreeShaped(layers[i])
    ensures TreeShaped(MergeAll(map[], layers))
  {
    if layers != [] {
      var n := |layers| - 1;
      assert forall i :: 0 <= i < n ==> layers[..n][i] == layers[i];
      MergeStaysTree(layers[..n]);
    }
  }

  /** For keys joined from dot-free segments, lying above is being a prefix, segment by segment. */
  lemma {:induction false} AboveIsPrefix(p: seq<string>, q: seq<string>)
    requires p != [] && q != []
    requires (forall i :: 0 <= i < |p| ==> DotFree(p[i])) && (forall i :: 0 <= i < |q| ==> DotFree(q[i]))
    ensures Above(Join(p, "."), Join(q, ".")) <==> p <= q
  {
    if p <= q && p != q { JoinPrefix(p, q); }
    if Above(Join(p, "."), Join(q, ".")) {
      if Join(p, ".") == Join(q, ".") { DottedPathInjective(p, q); } else { PrefixSegments(p, q); }
    }
  }

  lemma {:induction false} JoinPrefix(p: seq<string>, q: seq<string>)
    requires p != [] && p < q
    ensures Join(p, ".") + "." <= Join(q, ".")
  {
    if |p| > 1 {
      assert p[1..] < q[1..];
      JoinPrefix(p[1..], q[1..]);
      var a, b := Join(p[1..], "."), Join(q[1..], ".");
      assert b == a + "." + b[|a|+1..];
      assert Join(q, ".") == Join(p, ".") + "." + b[|a|+1..];
    }
  }

  lemma {:induction false} PrefixSegments(p: seq<string>, q: seq<string>)
    requires p != [] && q != [] && Join(p, ".") + "." <= Join(q, ".")
    requires (forall i :: 0 <= i < |p| ==> DotFree(p[i])) && (forall i :: 0 <= i < |q| ==> DotFree(q[i]))
    ensures p <= q
  {
    var tail := Join(q, ".")[|Join(p, ".")|+1..];
    var x := if |p| == 1 then "." + tail else "." + (Join(p[1..], ".") + "." + tail);
    var y := if |q| == 1 then "" else "." + Join(q[1..], ".");
    assert Join(q, ".") == Join(p, ".") + "." + tail;
    assert Join(p, ".") + "." + tail == p[0] + x && Join(q, ".") == q[0] + y;
    SameHead(p[0], q[0], x, y);
    if |p| > 1 {
      assert x[1..] == Join(p[1..], ".") + "." + tail && y[1..] == Join(q[1..], ".");
      PrefixSegments(p[1..], q[1..]);
      assert p == [p[0]] + p[1..] && q == [q[0]] + q[1..];
    }
  }

  // ---------------------------------------------------------------- the sources

  function Prefix(envPrefix: string): string { envPrefix + SEPARATOR }

  /** The environment in its own order; of several variables for one key the last wins. A variable whose
      mapped key is empty is skipped. */
  function EnvLayer(envPrefix: string, environ: seq<(string, string)>): Config {
    if environ == [] then map[]
    else
      var earlier := EnvLayer(envPrefix, environ[..|environ|-1]);
      var (name, value) := environ[|environ|-1];
      var key := MapKey(ASCII, Prefix(envPrefix), name);
      if Prefix(envPrefix) <= name && key != "" then earlier[key := value] else earlier
  }

  function DefaultLayers(defaults: Option<Config>): seq<Config> {
    if defaults.Some? then [defaults.value] else []
  }

  predicate AllParsed(files: seq<File>) { forall i :: 0 <= i < |files| ==> files[i].Parsed? }

  function FileLayers(files: seq<File>): seq<Config>
    requires AllParsed(files)
  {
    seq(|files|, i requires 0 <= i < |files| => files[i].leaves)
  }

  function EnvLayers(envPrefix: string, environ: seq<(string, string)>): seq<Config> {
    if envPrefix == "" then [] else [EnvLayer(envPrefix, environ)]
  }

  /** All layers of a complete load, lowest priority first. */
  function Layers(defaults: Option<Config>, files: seq<File>, envPrefix: string,
                  environ: seq<(string, string)>): seq<Config>
    requires AllParsed(files)
  {
    DefaultLayers(defaults) + FileLayers(files) + EnvLayers(envPrefix, environ)
  }

  predicate FirstUnreadable(files: seq<File>, n: nat) {
    n < |files| && files[n].Unreadable? && AllParsed(files[..n])
  }

  /** The configuration after a reload: the full merge, or the old one. */
  function Reloaded(was: Config, defaults: Option<Config>, files: seq<File>, envPrefix: string,
                    environ: seq<(string, string)>): Config {
    if AllParsed(files) then MergeAll(map[], Layers(defaults, files, envPrefix, environ)) else was
  }

  // ---------------------------------------------------------------- the loader

  /** A file-system event, with what the sources hold when it is handled: the outcome of reading each
      configured path, and the environment. */
  datatype WatchEvent = Write(files: seq<File>, environ: seq<(string, string)>) | OtherEvent | WatcherError

  datatype WatchError = NoFiles | CreateFailed | AddFailed(path: string)

  /** Event `i` is a write whose reload succeeds. */
  predicate GoodWrite(events: seq<WatchEvent>, i: nat) {
    i < |events| && events[i].Write? && AllParsed(events[i].files)
  }

  predicate LastGoodWrite(events: seq<WatchEvent>, i: nat) {
    GoodWrite(events, i) && forall j: nat :: i < j < |events| ==> !GoodWrite(events, j)
  }

  function GoodWrites(events: seq<WatchEvent>): nat {
    if events == [] then 0
    else GoodWrites(events[..|events|-1]) + if GoodWrite(events, |events|-1) then 1 else 0
  }

  /** The position of the first file that cannot be read, or the number of files. */
  function FirstBad(files: seq<File>): (n: nat)
    ensures n <= |files| && AllParsed(files[..n]) && (n < |files| ==> FirstUnreadable(files, n))
    ensures n == |files| <==> AllParsed(files)
  {
    if files == [] || files[0].Unreadable? then 0
    else
      var n := 1 + FirstBad(files[1..]);
      assert files[..n] == [files[0]] + files[1..][..n-1];
      n
  }

  predicate Complete(paths: seq<string>, event: WatchEvent) { event.Write? ==> |event.files| == |paths| }

  /** What the reload-error callback is given: the first unreadable path of each failed reload. */
  function Failures(paths: seq<string>, events: seq<WatchEvent>): seq<LoadError>
    requires forall i :: 0 <= i < |events| ==> Complete(paths, events[i])
  {
    if events == [] then []
    else
      var last := events[|events|-1];
      var earlier := Failures(paths, events[..|events|-1]);
      if last.Write? && FirstBad(last.files) < |paths| then
        earlier + [FileFailed(paths[FirstBad(last.files)])]
      else
        earlier
  }

  /** How many of the first `i` events are writes whose reload fails. */
  function BadWritesBefore(events: seq<WatchEvent>, i: nat): nat
    requires i <= |events|
  {
    if i == 0 then 0
    else BadWritesBefore(events, i - 1) + if events[i-1].Write? && !GoodWrite(events, i - 1) then 1 else 0
  }

  lemma {:induction false} BadWritesPrefix(events: seq<WatchEvent>, n: nat, i: nat)
    requires i <= n <= |events|
    ensures BadWritesBefore(events[..n], i) == BadWritesBefore(events, i)
  {
    if i > 0 { BadWritesPrefix(events, n, i - 1); }
  }

  lemma {:induction false} FailuresCount(paths: seq<string>, events: seq<WatchEvent>)
    requires forall i :: 0 <= i < |events| ==> Complete(paths, events[i])
    ensures |Failures(paths, events)| == BadWritesBefore(events, |events|)
  {
    if events != [] {
      var n := |events| - 1;
      FailuresCount(paths, events[..n]);
      BadWritesPrefix(events, n, n);
    }
  }

  /** Each write whose reload fails is reported once, in its turn, with the first path that cannot be read. */
  lemma {:induction false} FailuresExact(paths: seq<string>, events: seq<WatchEvent>, i: nat, n: nat)
    requires forall i :: 0 <= i < |events| ==> Complete(paths, events[i])
    requires i < |events| && events[i].Write? && FirstUnreadable(events[i].files, n)
    ensures BadWritesBefore(events, i) < |Failures(paths, events)| == BadWritesBefore(events, |events|)
    ensures Failures(paths, events)[BadWritesBefore(events, i)] == FileFailed(paths[n])
  {
    var last := |events| - 1;
    FailuresCount(paths, events);
    BadWritesPrefix(events, last, i);
    if i < last {
      FailuresExact(paths, events[..last], i, n);
    } else {
      FailuresCount(paths, events[..last]);
      FirstBadUnique(events[i].files, n);
    }
  }

  lemma FirstBadUnique(files: seq<File>, n: nat)
    requires FirstUnreadable(files, n)
    ensures FirstBad(files) == n
  {
    OnlyFirstUnreadable(files, n);
  }

  predicate FirstRefused(addable: string -> bool, paths: seq<string>, n: nat) {
    n < |paths| && !addable(paths[n]) && forall j :: 0 <= j < n ==> addable(paths[j])
  }

  class Loader {
    var k: Config
    const filePaths: seq<string>
    const envPrefix: string
    const defaults: Option<Config>

    constructor (filePaths: seq<string>, envPrefix: string, defaults: Option<Config>)
      ensures k == map[] && this.filePaths == filePaths && this.envPrefix == envPrefix && this.defaults == defaults
    {
      k := map[];
      this.filePaths, this.envPrefix, this.defaults := filePaths, envPrefix, defaults;
    }

    /** NewLoader: a loader holding the complete merge, or no loader and the first failing file. */
    static method Create(filePaths: seq<string>, envPrefix: string, defaults: Option<Config>,
                         files: seq<File>, environ: seq<(string, string)>)
      returns (l: Loader?, err: Option<LoadError>)
      requires |files| == |filePaths|
      ensures l != null <==> AllParsed(files)
      ensures l != null ==>
        fresh(l) && err == None && l.k == MergeAll(map[], Layers(defaults, files, envPrefix, environ))
      ensures forall n: nat :: FirstUnreadable(files, n) ==> err == Some(FileFailed(filePaths[n]))
    {
      var loader := new Loader(filePaths, envPrefix, defaults);
      err := loader.LoadSources(files, environ);
      l := if err.Some? then null else loader;
    }

    /** Merges every source over `k`. A file that cannot be read stops the load and leaves a partial merge. */
    method LoadSources(files: seq<File>, environ: seq<(string, string)>) returns (err: Option<LoadError>)
      requires |files| == |filePaths|
      modifies this`k
      ensures err.None? <==> AllParsed(files)
      ensures AllParsed(files) ==> k == MergeAll(old(k), Layers(defaults, files, envPrefix, environ))
      ensures forall n: nat :: FirstUnreadable(files, n) ==>
                err == Some(FileFailed(filePaths[n]))
                  && k == MergeAll(old(k), DefaultLayers(defaults) + FileLayers(files[..n]))
    {
      ghost var done: seq<Config> := [];
      if defaults.Some? {
        k := Merge(k, defaults.value);
        MergeOneMore(old(k), done, defaults.value);
        done := [defaults.value];
      }
      var i := 0;
      while i < |filePaths|
        invariant 0 <= i <= |filePaths| && AllParsed(files[..i])
        invariant done == DefaultLayers(defaults) + FileLayers(files[..i])
        invariant k == MergeAll(old(k), done)
      {
        if files[i].Unreadable? {
          OnlyFirstUnreadable(files, i);
          return Some(FileFailed(filePaths[i]));
        }
        k := Merge(k, files[i].leaves);
        MergeOneMore(old(k), done, files[i].leaves);
        OneMoreFile(files, i);
        done := done + [files[i].leaves];
        i := i + 1;
      }
      assert files[..i] == files;
      MergeNoMore(old(k), done);
      if envPrefix != "" {
        var layer := ReadEnvironment(environ);
        k := Merge(k, layer);
        MergeOneMore(old(k), done, layer);
      }
      return None;
    }

    /** The provider's loop over the environment. */
    method ReadEnvironment(environ: seq<(string, string)>) returns (layer: Config)
      ensures layer == EnvLayer(envPrefix, environ)
    {
      layer := map[];
      var prefix := Prefix(envPrefix);
      for i := 0 to |environ|
        invariant layer == EnvLayer(envPrefix, environ[..i])
      {
        var (name, value) := environ[i];
        if prefix <= name {
          var key := MapKey(ASCII, prefix, name);
          if key != "" { layer := layer[key := value]; }
        }
        assert environ[..i+1][..i] == environ[..i];
      }
      assert environ[..|environ|] == environ;
    }

    /** The reload section of Watch: a fresh merge that is rolled back when it cannot be completed. */
    method Reload(files: seq<File>, environ: seq<(string, string)>) returns (err: Option<LoadError>)
      requires |files| == |filePaths|
      modifies this`k
      ensures k == Reloaded(old(k), defaults, files, envPrefix, environ)
      ensures err.None? <==> AllParsed(files)
      ensures forall n: nat :: FirstUnreadable(files, n) ==> err == Some(FileFailed(filePaths[n]))
    {
      var oldK := k;
      k := map[];
      err := LoadSources(files, environ);
      if err.Some? { k := oldK; }
    }

    /** Watch over the events received before it is cancelled or the watcher is closed. */
    method Watch(created: bool, addable: string -> bool, events: seq<WatchEvent>)
      returns (err: Option<WatchError>, changes: nat, failures: seq<LoadError>)
      requires forall i :: 0 <= i < |events| ==> Complete(filePaths, events[i])
      modifies this`k
      ensures err == Some(NoFiles) <==> filePaths == []
      ensures err == Some(CreateFailed) <==> filePaths != [] && !created
      ensures err.None? <==> filePaths != [] && created && forall i :: 0 <= i < |filePaths| ==> addable(filePaths[i])
      ensures forall n: nat :: created && FirstRefused(addable, filePaths, n) ==>
                err == Some(AddFailed(filePaths[n]))
      ensures err.Some? ==> k == old(k) && changes == 0 && failures == []
      ensures err.None? ==> changes == GoodWrites(events) && failures == Failures(filePaths, events)
      ensures err.None? ==> forall i: nat :: LastGoodWrite(events, i) ==>
                k == MergeAll(map[], Layers(defaults, events[i].files, envPrefix, events[i].environ))
      ensures (forall i: nat :: i < |events| ==> !GoodWrite(events, i)) ==> k == old(k)
    {
      changes, failures := 0, [];
      if |filePaths| == 0 { return Some(NoFiles), 0, []; }
      if !created { return Some(CreateFailed), 0, []; }
      for i := 0 to |filePaths|
        invariant forall j :: 0 <= j < i ==> addable(filePaths[j])
      {
        if !addable(filePaths[i]) { return Some(AddFailed(filePaths[i])), 0, []; }
      }
      for i := 0 to |events|
        invariant changes == GoodWrites(events[..i]) && failures == Failures(filePaths, events[..i])
        invariant forall g: nat :: LastGoodWrite(events[..i], g) ==>
                    k == MergeAll(map[], Layers(defaults, events[g].files, envPrefix, events[g].environ))
        invariant (forall g: nat :: g < i ==> !GoodWrite(events[..i], g)) ==> k == old(k)
      {
        if events[i].Write? {
          var reload := Reload(events[i].files, events[i].environ);
          if reload.Some? {
            failures := failures + [reload.value];
          } else {
            changes := changes + 1;
          }
        }
        OneMoreEvent(events, i);
        assert events[..i+1][..i] == events[..i];
      }
      assert events[..|events|] == events;
      return None, changes, failures;
    }
  }

  lemma OneMoreFile(files: seq<File>, i: nat)
    requires i < |files| && AllParsed(files[..i]) && files[i].Parsed?
    ensures AllParsed(files[..i+1]) && FileLayers(files[..i+1]) == FileLayers(files[..i]) + [files[i].leaves]
  {
    assert files[..i+1] == files[..i] + [files[i]];
  }

  lemma ParsedPrefix(files: seq<File>, n: nat)
    requires n <= |files|
    ensures AllParsed(files[..n]) <==> forall j :: 0 <= j < n ==> files[j].Parsed?
  {
    assert forall j :: 0 <= j < n ==> files[..n][j] == files[j];
  }

  lemma OnlyFirstUnreadable(files: seq<File>, i: nat)
    requires i < |files| && AllParsed(files[..i]) && files[i].Unreadable?
    ensures !AllParsed(files) && FirstUnreadable(files, i) && forall n: nat :: FirstUnreadable(files, n) ==> n == i
  {
    ParsedPrefix(files, i);
    forall n: nat | FirstUnreadable(files, n) ensures n == i {
      ParsedPrefix(files, n);
    }
  }

  lemma SameGoodWrite(events: seq<WatchEvent>, i: nat, g: nat)
    requires i <= |events|
    ensures GoodWrite(events[..i], g) <==> g < i && GoodWrite(events, g)
  {}

  lemma OneMoreEvent(events: seq<WatchEvent>, i: nat)
    requires i < |events|
    ensures GoodWrites(events[..i+1]) == GoodWrites(events[..i]) + if GoodWrite(events, i) then 1 else 0
    ensures forall g: nat :: LastGoodWrite(events[..i+1], g) <==>
              if GoodWrite(events, i) then g == i else LastGoodWrite(events[..i], g)
    ensures forall g: nat ::
              GoodWrite(events[..i+1], g) <==> GoodWrite(events[..i], g) || (g == i && GoodWrite(events, i))
  {
    assert events[..i+1][..i] == events[..i];
    forall g: nat
      ensures GoodWrite(events[..i+1], g) <==> GoodWrite(events[..i], g) || (g == i && GoodWrite(events, i))
    {
      SameGoodWrite(events, i, g);
      SameGoodWrite(events, i + 1, g);
    }
    SameGoodWrite(events, i + 1, i);
    forall g: nat
      ensures LastGoodWrite(events[..i+1], g)
        <==> if GoodWrite(events, i) then g == i else LastGoodWrite(events[..i], g)
    {
      LastGoodWriteStep(events, i, g);
    }
  }

  lemma LastGoodWriteStep(events: seq<WatchEvent>, i: nat, g: nat)
    requires i < |events|
    ensures LastGoodWrite(events[..i+1], g) <==> if GoodWrite(events, i) then g == i else LastGoodWrite(events[..i], g)
  {
    var longer, shorter := events[..i+1], events[..i];
    SameGoodWrite(events, i + 1, i);
    SameGoodWrite(events, i + 1, g);
    SameGoodWrite(events, i, g);
    if LastGoodWrite(longer, g) && !GoodWrite(events, i) {
      forall j: nat | g < j < |shorter| ensures !GoodWrite(shorter, j) {
        SameGoodWrite(events, i, j);
        SameGoodWrite(events, i + 1, j);
      }
    }
    if LastGoodWrite(shorter, g) && !GoodWrite(events, i) {
      forall j: nat | g < j < |longer| ensures !GoodWrite(longer, j) {
        SameGoodWrite(events, i, j);
        SameGoodWrite(events, i + 1, j);
      }
    }
  }

  // ---------------------------------------------------------------- what the environment sets

  predicate Sets(envPrefix: string, name: string, key: string) {
    Prefix(envPrefix) <= name && MapKey(ASCII, Prefix(envPrefix), name) == key && key != ""
  }

  lemma EnvLayerMore(envPrefix: string, environ: seq<(string, string)>, key: string)
    requires environ != []
    ensures var n, layer := |environ| - 1, EnvLayer(envPrefix, environ);
            var earlier := EnvLayer(envPrefix, environ[..n]);
            if Sets(envPrefix, environ[n].0, key) then key in layer && layer[key] == environ[n].1
            else (key in layer <==> key in earlier) && (key in earlier ==> layer[key] == earlier[key])
  {}

  lemma {:induction false} LastVariableWins(envPrefix: string, environ: seq<(string, string)>, i: nat, key: string)
    requires i < |environ| && Sets(envPrefix, environ[i].0, key)
    requires forall j :: i < j < |environ| ==> !Sets(envPrefix, environ[j].0, key)
    ensures var layer := EnvLayer(envPrefix, environ); key in layer && layer[key] == environ[i].1
  {
    var n := |environ| - 1;
    EnvLayerMore(envPrefix, environ, key);
    if i < n {
      var earlier := environ[..n];
      assert forall j :: 0 <= j < n ==> earlier[j] == environ[j];
      LastVariableWins(envPrefix, earlier, i, key);
    }
  }

  ghost predicate LastSetter(envPrefix: string, environ: seq<(string, string)>, i: nat, key: string) {
    && i < |environ| && Sets(envPrefix, environ[i].0, key)
    && forall j :: i < j < |environ| ==> !Sets(envPrefix, environ[j].0, key)
  }

  /** The environment layer gives a key a value exactly when the last variable set for the key has it. */
  lemma {:induction false} EnvLayerExact(envPrefix: string, environ: seq<(string, string)>, key: string, value: string)
    ensures var layer := EnvLayer(envPrefix, environ);
            key in layer && layer[key] == value
            <==> exists i: nat :: LastSetter(envPrefix, environ, i, key) && environ[i].1 == value
  {
    if i: nat :| LastSetter(envPrefix, environ, i, key) && environ[i].1 == value {
      LastVariableWins(envPrefix, environ, i, key);
    }
    if key in EnvLayer(envPrefix, environ) && EnvLayer(envPrefix, environ)[key] == value {
      var i := SetterExists(envPrefix, environ, key);
      LastVariableWins(envPrefix, environ, i, key);
    }
  }

  lemma {:induction false} SetterExists(envPrefix: string, environ: seq<(string, string)>, key: string)
    returns (i: nat)
    requires key in EnvLayer(envPrefix, environ)
    ensures LastSetter(envPrefix, environ, i, key)
  {
    var n := |environ| - 1;
    EnvLayerMore(envPrefix, environ, key);
    if Sets(envPrefix, environ[n].0, key) {
      i := n;
    } else {
      i := SetterExists(envPrefix, environ[..n], key);
      forall j | i < j < |environ| ensures !Sets(envPrefix, environ[j].0, key) {
        if j < n { assert environ[..n][j] == environ[j]; }
      }
    }
  }

  /** The environment, if a prefix is configured, sets nothing that clashes with `key`. */
  ghost predicate EnvSilent(envPrefix: string, environ: seq<(string, string)>, key: string) {
    envPrefix != "" ==> !Clashes(key, EnvLayer(envPrefix, environ))
  }

  /** The files from the `n`-th on set nothing that clashes with `key`. */
  ghost predicate FilesSilent(files: seq<File>, n: nat, key: string)
    requires AllParsed(files)
  {
    forall j :: n <= j < |files| ==> !Clashes(key, files[j].leaves)
  }

  /** Which source gives `key` its value: the environment, the last file to mention it, or the defaults. */
  ghost predicate SourceGives(defaults: Option<Config>, files: seq<File>, envPrefix: string,
                              environ: seq<(string, string)>, key: string, value: string)
    requires AllParsed(files)
  {
    || (envPrefix != "" && Gives(EnvLayer(envPrefix, environ), key, value))
    || (EnvSilent(envPrefix, environ, key)
        && exists i: nat :: i < |files| && Gives(files[i].leaves, key, value) && FilesSilent(files, i + 1, key))
    || (EnvSilent(envPrefix, environ, key) && FilesSilent(files, 0, key)
        && defaults.Some? && Gives(defaults.value, key, value))
  }

  predicate Gives(c: Config, key: string, value: string) { key in c && c[key] == value }

  /** In a complete load the environment goes before the files, a later file before an earlier one, and every file
      before the defaults. */
  lemma LoadedExact(defaults: Option<Config>, files: seq<File>, envPrefix: string, environ: seq<(string, string)>,
                    key: string, value: string)
    requires AllParsed(files)
    ensures Gives(MergeAll(map[], Layers(defaults, files, envPrefix, environ)), key, value)
       <==> SourceGives(defaults, files, envPrefix, environ, key, value)
  {
    var layers := Layers(defaults, files, envPrefix, environ);
    MergePriority(layers, key, value);
    if i: nat :| Decides(layers, i, key, value) { DecidedBySource(defaults, files, envPrefix, environ, i, key, value); }
    if SourceGives(defaults, files, envPrefix, environ, key, value) {
      var i := SourceDecides(defaults, files, envPrefix, environ, key, value);
    }
  }

  /** The positions of the sources among the layers. */
  lemma LayersAre(defaults: Option<Config>, files: seq<File>, envPrefix: string, environ: seq<(string, string)>)
    requires AllParsed(files)
    ensures var layers, d := Layers(defaults, files, envPrefix, environ), if defaults.Some? then 1 else 0;
            && |layers| == d + |files| + (if envPrefix != "" then 1 else 0)
            && (defaults.Some? ==> layers[0] == defaults.value)
            && (forall i :: 0 <= i < |files| ==> layers[d + i] == files[i].leaves)
            && (envPrefix != "" ==> layers[d + |files|] == EnvLayer(envPrefix, environ))
  {}

  lemma DecidedBySource(defaults: Option<Config>, files: seq<File>, envPrefix: string, environ: seq<(string, string)>,
                        i: nat, key: string, value: string)
    requires AllParsed(files) && Decides(Layers(defaults, files, envPrefix, environ), i, key, value)
    ensures SourceGives(defaults, files, envPrefix, environ, key, value)
  {
    var layers, d := Layers(defaults, files, envPrefix, environ), if defaults.Some? then 1 else 0;
    LayersAre(defaults, files, envPrefix, environ);
    forall j | 0 <= j < |files| && i < d + j ensures !Clashes(key, files[j].leaves) {
      assert !Clashes(key, layers[d + j]);
    }
    if d <= i < d + |files| {
      assert Gives(files[i - d].leaves, key, value) && FilesSilent(files, i - d + 1, key);
    }
  }

  lemma SourceDecides(defaults: Option<Config>, files: seq<File>, envPrefix: string, environ: seq<(string, string)>,
                      key: string, value: string)
    returns (i: nat)
    requires AllParsed(files) && SourceGives(defaults, files, envPrefix, environ, key, value)
    ensures Decides(Layers(defaults, files, envPrefix, environ), i, key, value)
  {
    var d := if defaults.Some? then 1 else 0;
    LayersAre(defaults, files, envPrefix, environ);
    if envPrefix != "" && Gives(EnvLayer(envPrefix, environ), key, value) {
      i := d + |files|;
    } else if k: nat :| k < |files| && Gives(files[k].leaves, key, value) && FilesSilent(files, k + 1, key) {
      i := d + k;
      LaterSilent(defaults, files, envPrefix, environ, i, key);
    } else {
      i := 0;
      LaterSilent(defaults, files, envPrefix, environ, i, key);
    }
  }

  /** Nothing above layer `i` clashes with the key, if the files after it and the environment do not. */
  lemma LaterSilent(defaults: Option<Config>, files: seq<File>, envPrefix: string, environ: seq<(string, string)>,
                    i: nat, key: string)
    requires AllParsed(files) && EnvSilent(envPrefix, environ, key)
    requires var d := if defaults.Some? then 1 else 0; i + 1 >= d && FilesSilent(files, i + 1 - d, key)
    ensures var layers := Layers(defaults, files, envPrefix, environ);
            forall j :: i < j < |layers| ==> !Clashes(key, layers[j])
  {
    var layers, d := Layers(defaults, files, envPrefix, environ), if defaults.Some? then 1 else 0;
    LayersAre(defaults, files, envPrefix, environ);
    forall j | i < j < |layers| ensures !Clashes(key, layers[j]) {
      if j < d + |files| { assert layers[d + (j - d)] == files[j - d].leaves; }
    }
  }

  /** The variable spelled for a lower-case safe path overrides every file and default for that path,
      whatever they hold. */
  lemma VariableOverrides(defaults: Option<Config>, files: seq<File>, envPrefix: string, environ: seq<(string, string)>,
                          i: nat, path: seq<string>)
    requires AllParsed(files) && envPrefix != "" && path != [] && Safe(path)
    requires Join(path, ".") != "" && AllLowerCase(ASCII, path)
    requires i < |environ| && environ[i].0 == Encode(ASCII, Prefix(envPrefix), path)
    requires forall j :: i < j < |environ| ==> !Sets(envPrefix, environ[j].0, Join(path, "."))
    ensures var m := MergeAll(map[], Layers(defaults, files, envPrefix, environ));
            Join(path, ".") in m && m[Join(path, ".")] == environ[i].1
  {
    var key := Join(path, ".");
    AsciiLetters(key);
    RoundTrip(ASCII, Prefix(envPrefix), path);
    LastVariableWins(envPrefix, environ, i, key);
    var layers := Layers(defaults, files, envPrefix, environ);
    MergePriority(layers, key, environ[i].1);
    assert layers[|layers|-1] == EnvLayer(envPrefix, environ);
    assert Decides(layers, |layers|-1, key, environ[i].1);
  }

  /** The documented spelling of a variable never sets its key, whatever the prefix and the path: the key it
      could set, if it has the prefix at all, is too short. */
  lemma DocumentedNameNeverSets(envPrefix: string, path: seq<string>)
    requires path != []
    ensures !Sets(envPrefix, Documented(ASCII, envPrefix, path), Join(path, "."))
  {
    var prefix, name := Prefix(envPrefix), Documented(ASCII, envPrefix, path);
    MappedAt(UpperLetter, Join(path, "_"));
    JoinLengths(path, "_", ".");
    if prefix <= name {
      MappedAt(LowerLetter, name[|prefix|..]);
      DottedLength(Mapped(LowerLetter, name[|prefix|..]));
    }
  }

  /** The example of the documentation. */
  lemma DocumentedExample() returns (envPrefix: string, name: string, key: string)
    ensures envPrefix == "MYAPP" && name == "MYAPP_SERVER_ADDR" && key == "server.addr"
    ensures !Sets(envPrefix, name, key)
  {
    envPrefix := "MYAPP";
    var server, addr := "server", "addr";
    name, key := Documented(ASCII, envPrefix, [server, addr]), server + "." + addr;
    TwoSegments(envPrefix, server, addr);
    UpperServer(server);
    UpperAddr(addr);
    DocumentedNameNeverSets(envPrefix, [server, addr]);
  }

  lemma TwoSegments(envPrefix: string, s: string, t: string)
    ensures Documented(ASCII, envPrefix, [s, t])
      == envPrefix + "_" + Mapped(UpperLetter, s) + "_" + Mapped(UpperLetter, t)
    ensures Join([s, t], ".") == s + "." + t
  {
    var path := [s, t];
    assert path[1..] == [t];
    assert Join(path, "_") == s + "_" + t == s + ("_" + t);
    MappedAdd(UpperLetter, s, "_" + t);
    MappedAdd(UpperLetter, "_", t);
    assert Mapped(UpperLetter, "_") == "_";
    assert envPrefix + "_" + (Mapped(UpperLetter, s) + ("_" + Mapped(UpperLetter, t)))
      == envPrefix + "_" + Mapped(UpperLetter, s) + "_" + Mapped(UpperLetter, t);
  }

  lemma UpperServer(s: string)
    requires s == "server"
    ensures Mapped(UpperLetter, s) == "SERVER"
  {
    assert Mapped(UpperLetter, "server") == "SERVER";
  }

  lemma UpperAddr(s: string)
    requires s == "addr"
    ensures Mapped(UpperLetter, s) == "ADDR"
  {
    assert Mapped(UpperLetter, "addr") == "ADDR";
  }
}
