/** The fan-out log handler of pkg/observe. A tree of handlers behaves as the flat list of its leaves. */
module LogHandlers {
  import opened Common

  /** One derivation: WithAttrs or WithGroup. */
  datatype Op = Attrs(attrs: seq<(string, string)>) | Group(name: string)

  /** A foreign handler, with the derivations applied to it, oldest first. */
  datatype Leaf = Leaf(id: nat, ops: seq<Op>)

  datatype Handler = Single(leaf: Leaf) | Multi(handlers: seq<Handler>)

  datatype Record = Record(level: int, message: string)

  /** What foreign handlers do: whether they take a level, and the error of handling a record. */
  datatype World = World(enabled: (Leaf, int) -> bool, failure: (Leaf, Record) -> Option<string>)

  // ---------------------------------------------------------------- the leaves of a tree

  function Leaves(h: Handler): seq<Leaf> {
    match h
    case Single(leaf) => [leaf]
    case Multi(hs) => LeavesOf(hs)
  }

  function LeavesOf(hs: seq<Handler>): seq<Leaf> {
    if hs == [] then [] else LeavesOf(hs[..|hs|-1]) + Leaves(hs[|hs|-1])
  }

  lemma {:induction false} LeavesSplit(hs: seq<Handler>, n: nat)
    requires n <= |hs|
    ensures LeavesOf(hs) == LeavesOf(hs[..n]) + LeavesOf(hs[n..])
  {
    if n == |hs| {
      assert hs[..n] == hs && hs[n..] == [];
    } else {
      var last := |hs| - 1;
      LeavesSplit(hs[..last], n);
      assert hs[..last][..n] == hs[..n] && hs[..last][n..] == hs[n..][..last-n];
      assert hs[n..][last-n] == hs[last];
    }
  }

  /** The leaves of a handler: a foreign one is its own, and a fan-out has those of its parts, one part after the
      other, however they are grouped. */
  lemma FanOutLeaves(leaf: Leaf, h: Handler, hs: seq<Handler>, gs: seq<Handler>)
    ensures Leaves(Single(leaf)) == [leaf] && Leaves(Multi([])) == [] && Leaves(Multi([h])) == Leaves(h)
    ensures Leaves(Multi(hs + gs)) == Leaves(Multi(hs)) + Leaves(Multi(gs))
    ensures Leaves(Multi([Multi(hs)] + gs)) == Leaves(Multi(hs + gs))
  {
    OneHandler(h);
    OneHandler(Multi(hs));
    LeavesSplit(hs + gs, |hs|);
    LeavesSplit([Multi(hs)] + gs, 1);
    assert (hs + gs)[..|hs|] == hs && (hs + gs)[|hs|..] == gs;
    assert ([Multi(hs)] + gs)[..1] == [Multi(hs)] && ([Multi(hs)] + gs)[1..] == gs;
  }

  lemma OneHandler(h: Handler)
    ensures LeavesOf([h]) == Leaves(h)
  {
    var hs := [h];
    assert hs[..0] == [] && LeavesOf(hs[..0]) == [];
  }

  lemma OneMoreHandler(hs: seq<Handler>, i: nat)
    requires i < |hs|
    ensures LeavesOf(hs[..i+1]) == LeavesOf(hs[..i]) + Leaves(hs[i])
  {
    assert hs[..i+1][..i] == hs[..i];
  }

  /** Each leaf with `ops` added to what it already carries. */
  function Carrying(ls: seq<Leaf>, ops: seq<Op>): seq<Leaf> {
    seq(|ls|, i requires 0 <= i < |ls| => Leaf(ls[i].id, ls[i].ops + ops))
  }

  // ---------------------------------------------------------------- derivation

  function Derived(h: Handler, op: Op): Handler {
    match h
    case Single(leaf) => Single(Leaf(leaf.id, leaf.ops + [op]))
    case Multi(hs) => Multi(DerivedAll(hs, op))
  }

  function DerivedAll(hs: seq<Handler>, op: Op): seq<Handler> {
    if hs == [] then [] else DerivedAll(hs[..|hs|-1], op) + [Derived(hs[|hs|-1], op)]
  }

  /** Deriving a tree derives every leaf, in order, and adds none. */
  lemma {:induction false} DerivedLeaves(h: Handler, op: Op)
    ensures Leaves(Derived(h, op)) == Carrying(Leaves(h), [op])
    decreases h
  {
    if h.Multi? { DerivedAllLeaves(h.handlers, op); }
  }

  lemma {:induction false} DerivedAllLeaves(hs: seq<Handler>, op: Op)
    ensures LeavesOf(DerivedAll(hs, op)) == Carrying(LeavesOf(hs), [op])
    decreases hs
  {
    if hs != [] {
      var n := |hs| - 1;
      DerivedAllLeaves(hs[..n], op);
      DerivedLeaves(hs[n], op);
      var ds := DerivedAll(hs[..n], op);
      var d := Derived(hs[n], op);
      assert (ds + [d])[..|ds|] == ds;
    }
  }

  /** WithAttrs and WithGroup. On a fan-out the loop fills a fresh slice by index. */
  method With(h: Handler, op: Op) returns (d: Handler)
    ensures d == Derived(h, op)
    ensures |Leaves(d)| == |Leaves(h)|
    ensures forall i :: 0 <= i < |Leaves(h)| ==>
      Leaves(d)[i].id == Leaves(h)[i].id && Leaves(d)[i].ops == Leaves(h)[i].ops + [op]
    decreases h
  {
    DerivedLeaves(h, op);
    match h
    case Single(leaf) => d := Single(Leaf(leaf.id, leaf.ops + [op]));
    case Multi(hs) =>
      var handlers := new Handler[|hs|];
      for i := 0 to |hs|
        invariant handlers[..i] == DerivedAll(hs[..i], op)
      {
        assert hs[i] in hs;
        var derived := With(hs[i], op);
        handlers[i] := derived;
        assert hs[..i+1][..i] == hs[..i];
        assert handlers[..i+1] == handlers[..i] + [derived];
      }
      assert hs[..|hs|] == hs && handlers[..] == handlers[..|hs|];
      d := Multi(handlers[..]);
  }

  // ---------------------------------------------------------------- dispatch

  predicate SomeEnabled(w: World, ls: seq<Leaf>, level: int) {
    exists i :: 0 <= i < |ls| && w.enabled(ls[i], level)
  }

  /** A fan-out takes a level when some leaf below it does. */
  method Enabled(w: World, h: Handler, level: int) returns (b: bool)
    ensures b <==> SomeEnabled(w, Leaves(h), level)
    decreases h
  {
    match h
    case Single(leaf) =>
      b := w.enabled(leaf, level);
      assert Leaves(h)[0] == leaf;
    case Multi(hs) =>
      for i := 0 to |hs|
        invariant !SomeEnabled(w, LeavesOf(hs[..i]), level)
      {
        assert hs[i] in hs;
        var taken := Enabled(w, hs[i], level);
        EnabledBelow(w, hs, i, level);
        if taken { return true; }
      }
      assert hs[..|hs|] == hs;
      return false;
  }

  lemma EnabledBelow(w: World, hs: seq<Handler>, i: nat, level: int)
    requires i < |hs| && !SomeEnabled(w, LeavesOf(hs[..i]), level)
    ensures SomeEnabled(w, Leaves(hs[i]), level) ==> SomeEnabled(w, LeavesOf(hs), level)
    ensures !SomeEnabled(w, Leaves(hs[i]), level) ==> !SomeEnabled(w, LeavesOf(hs[..i+1]), level)
  {
    OneMoreHandler(hs, i);
    LeavesSplit(hs, i + 1);
    SomeEnabledAdd(w, LeavesOf(hs[..i]), Leaves(hs[i]), level);
    SomeEnabledAdd(w, LeavesOf(hs[..i+1]), LeavesOf(hs[i+1..]), level);
  }

  lemma SomeEnabledAdd(w: World, ls: seq<Leaf>, ms: seq<Leaf>, level: int)
    ensures SomeEnabled(w, ls + ms, level) <==> SomeEnabled(w, ls, level) || SomeEnabled(w, ms, level)
  {
    var all := ls + ms;
    if i :| 0 <= i < |ms| && w.enabled(ms[i], level) { assert all[|ls| + i] == ms[i]; }
    if i :| 0 <= i < |ls| && w.enabled(ls[i], level) { assert all[i] == ls[i]; }
  }

  /** Giving a record to a list of leaves: which of them get it, and the error. */
  function Flat(w: World, ls: seq<Leaf>, r: Record): (seq<Leaf>, Option<string>) {
    if ls == [] then ([], None)
    else
      var (got, err) := Flat(w, ls[..|ls|-1], r);
      var leaf := ls[|ls|-1];
      if err.Some? || !w.enabled(leaf, r.level) then (got, err) else (got + [leaf], w.failure(leaf, r))
  }

  function EnabledOnly(w: World, ls: seq<Leaf>, level: int): seq<Leaf> {
    if ls == [] then []
    else
      var leaf := ls[|ls|-1];
      EnabledOnly(w, ls[..|ls|-1], level) + if w.enabled(leaf, level) then [leaf] else []
  }

  /** Exactly the enabled leaves get the record, in order, up to and including the first that fails, and
      its error is the result. */
  lemma {:induction false} FlatReaches(w: World, ls: seq<Leaf>, r: Record)
    ensures var (got, err) := Flat(w, ls, r);
            && got <= EnabledOnly(w, ls, r.level)
            && (err.None? ==> got == EnabledOnly(w, ls, r.level))
            && (err.None? ==> forall i :: 0 <= i < |got| ==> w.failure(got[i], r).None?)
            && (err.Some? ==> got != [] && w.failure(got[|got|-1], r) == err
                              && forall i :: 0 <= i < |got| - 1 ==> w.failure(got[i], r).None?)
  {
    if ls != [] { FlatReaches(w, ls[..|ls|-1], r); }
  }

  /** The leaves that take the level, in their order, and no others. */
  lemma {:induction false} EnabledOnlyExact(w: World, ls: seq<Leaf>, ms: seq<Leaf>, leaf: Leaf, level: int)
    ensures EnabledOnly(w, [leaf], level) == if w.enabled(leaf, level) then [leaf] else []
    ensures EnabledOnly(w, ls + ms, level) == EnabledOnly(w, ls, level) + EnabledOnly(w, ms, level)
    decreases ms
  {
    assert [leaf][..0] == [] && EnabledOnly(w, [leaf][..0], level) == [];
    if ms == [] {
      assert ls + ms == ls;
    } else {
      var n := |ms| - 1;
      EnabledOnlyExact(w, ls, ms[..n], leaf, level);
      assert (ls + ms)[..|ls|+n] == ls + ms[..n];
    }
  }

  lemma {:induction false} FlatSplit(w: World, ls: seq<Leaf>, ms: seq<Leaf>, r: Record)
    ensures var (got, err) := Flat(w, ls, r);
            Flat(w, ls + ms, r) == if err.Some? then (got, err) else (got + Flat(w, ms, r).0, Flat(w, ms, r).1)
  {
    if ms == [] {
      assert ls + ms == ls && Flat(w, ms, r) == ([], None);
      assert Flat(w, ls, r).0 + [] == Flat(w, ls, r).0;
    } else {
      var n := |ms| - 1;
      FlatSplit(w, ls, ms[..n], r);
      assert (ls + ms)[..|ls|+n] == ls + ms[..n];
      var got, more := Flat(w, ls, r).0, Flat(w, ms[..n], r).0;
      assert (got + more) + [ms[n]] == got + (more + [ms[n]]);
    }
  }

  lemma {:induction false} FlatNoneEnabled(w: World, ls: seq<Leaf>, r: Record)
    requires !SomeEnabled(w, ls, r.level)
    ensures Flat(w, ls, r) == ([], None)
  {
    if ls != [] { FlatNoneEnabled(w, ls[..|ls|-1], r); }
  }

  lemma FlatOne(w: World, leaf: Leaf, r: Record)
    requires w.enabled(leaf, r.level)
    ensures Flat(w, [leaf], r) == ([leaf], w.failure(leaf, r))
  {
    var ls := [leaf];
    assert ls[..|ls|-1] == [] && Flat(w, [], r) == ([], None);
    assert [] + [leaf] == ls;
  }

  /** Handle. A fan-out nested to any depth, with its check of Enabled at every level and its early return,
      acts on its leaves as on one flat list. A foreign handler on its own is not asked whether it is enabled. */
  method Handle(w: World, h: Handler, r: Record) returns (got: seq<Leaf>, err: Option<string>)
    ensures h.Single? ==> got == [h.leaf] && err == w.failure(h.leaf, r)
    ensures h.Multi? || SomeEnabled(w, Leaves(h), r.level) ==> (got, err) == Flat(w, Leaves(h), r)
    decreases h
  {
    match h
    case Single(leaf) =>
      got, err := [leaf], w.failure(leaf, r);
      if w.enabled(leaf, r.level) { FlatOne(w, leaf, r); }
    case Multi(hs) =>
      got, err := [], None;
      for i := 0 to |hs|
        invariant err == None && Flat(w, LeavesOf(hs[..i]), r) == (got, None)
      {
        assert hs[i] in hs;
        var taken := Enabled(w, hs[i], r.level);
        OneMoreHandler(hs, i);
        FlatSplit(w, LeavesOf(hs[..i]), Leaves(hs[i]), r);
        if taken {
          var more;
          more, err := Handle(w, hs[i], r);
          got := got + more;
          if err.Some? {
            LeavesSplit(hs, i + 1);
            FlatSplit(w, LeavesOf(hs[..i+1]), LeavesOf(hs[i+1..]), r);
            return;
          }
        } else {
          FlatNoneEnabled(w, Leaves(hs[i]), r);
          assert got + [] == got;
        }
      }
      assert hs[..|hs|] == hs;
  }
}
