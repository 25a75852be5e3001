/** The swappable log handler of pkg/observe: derived handlers share one root cell and keep their own list of
    derivations, which `Current` folds over whatever the cell holds. */
module SwapHandlers {
  import opened Common
  import opened LogHandlers

  /** The shared atomic pointer. */
  class Root {
    var handler: Handler

    constructor (h: Handler)
      ensures handler == h
    {
      handler := h;
    }
  }

  function ApplyOps(h: Handler, ops: seq<Op>): Handler {
    if ops == [] then h else Derived(ApplyOps(h, ops[..|ops|-1]), ops[|ops|-1])
  }

  /** Applying a list of derivations reaches every leaf of the tree, in order, with the whole list. */
  lemma {:induction false} ApplyOpsLeaves(h: Handler, ops: seq<Op>)
    ensures Leaves(ApplyOps(h, ops)) == Carrying(Leaves(h), ops)
  {
    if ops == [] {
      assert forall i :: 0 <= i < |Leaves(h)| ==> Leaves(h)[i].ops + ops == Leaves(h)[i].ops;
    } else {
      var n := |ops| - 1;
      ApplyOpsLeaves(h, ops[..n]);
      DerivedLeaves(ApplyOps(h, ops[..n]), ops[n]);
      forall i | 0 <= i < |Leaves(h)|
        ensures (Leaves(h)[i].ops + ops[..n]) + [ops[n]] == Leaves(h)[i].ops + ops
      {
        assert ops[..n] + [ops[n]] == ops;
      }
    }
  }

  lemma ApplyOpsKeepsFanOut(h: Handler, ops: seq<Op>)
    ensures ApplyOps(h, ops).Multi? <==> h.Multi?
  {}

  class SwapHandler {
    const root: Root
    const builds: array<Op>

    /** newSwapHandler. */
    constructor (h: Handler)
      ensures fresh(root) && root.handler == h && fresh(builds) && Ops() == []
    {
      root := new Root(h);
      builds := new Op[0];
    }

    constructor Sharing(root: Root, builds: array<Op>)
      ensures this.root == root && this.builds == builds
    {
      this.root, this.builds := root, builds;
    }

    function Ops(): seq<Op> reads builds { builds[..] }

    method Swap(h: Handler)
      modifies root
      ensures root.handler == h
    {
      root.handler := h;
    }

    method Current() returns (h: Handler)
      ensures h == ApplyOps(root.handler, Ops())
      ensures |Leaves(h)| == |Leaves(root.handler)|
      ensures forall i :: 0 <= i < |Leaves(h)| ==>
        Leaves(h)[i].id == Leaves(root.handler)[i].id && Leaves(h)[i].ops == Leaves(root.handler)[i].ops + builds[..]
    {
      ApplyOpsLeaves(root.handler, builds[..]);
      h := root.handler;
      for i := 0 to builds.Length
        invariant h == ApplyOps(root.handler, builds[..i])
      {
        h := LogHandlers.With(h, builds[i]);
        assert builds[..i+1][..i] == builds[..i];
      }
      assert builds[..builds.Length] == builds[..];
    }

    /** WithAttrs and WithGroup: a new handler on the same root with a longer copy of the list. Nothing that
        existed before is written, so no other handler's list changes. */
    method With(op: Op) returns (derived: SwapHandler)
      ensures fresh(derived) && fresh(derived.builds)
      ensures derived.root == root && derived.Ops() == Ops() + [op]
    {
      var longer := new Op[builds.Length + 1];
      forall i | 0 <= i < builds.Length { longer[i] := builds[i]; }
      longer[builds.Length] := op;
      assert longer[..builds.Length] == builds[..];
      derived := new SwapHandler.Sharing(root, longer);
    }

    /** A record given to a derived handler goes to the leaves of the present root, each carrying this
        handler's whole list of derivations; a root that is one foreign handler gets it unasked. */
    method Handle(w: World, r: Record) returns (got: seq<Leaf>, err: Option<string>)
      ensures root.handler.Multi? || SomeEnabled(w, Carrying(Leaves(root.handler), Ops()), r.level) ==>
                (got, err) == Flat(w, Carrying(Leaves(root.handler), Ops()), r)
      ensures root.handler.Single? ==>
                got == Carrying([root.handler.leaf], Ops()) && err == w.failure(got[0], r)
    {
      var h := Current();
      ApplyOpsLeaves(root.handler, Ops());
      ApplyOpsKeepsFanOut(root.handler, Ops());
      got, err := LogHandlers.Handle(w, h, r);
    }

    method Enabled(w: World, level: int) returns (b: bool)
      ensures b <==> SomeEnabled(w, Carrying(Leaves(root.handler), Ops()), level)
    {
      var h := Current();
      ApplyOpsLeaves(root.handler, Ops());
      b := LogHandlers.Enabled(w, h, level);
    }
  }

  // ---------------------------------------------------------------- histories of swaps and derivations

  /** Handlers are numbered in the order of creation; the first is number 0. */
  datatype Event = Swap(handler: Handler) | Derive(from: nat, op: Op)

  datatype Family = Family(root: Handler, ops: seq<seq<Op>>)

  function Step(f: Family, e: Event): Option<Family> {
    match e
    case Swap(h) => Some(f.(root := h))
    case Derive(from, op) =>
      if from < |f.ops| then Some(f.(ops := f.ops + [f.ops[from] + [op]])) else None
  }

  function Play(h: Handler, es: seq<Event>): Option<Family> {
    if es == [] then Some(Family(h, [[]]))
    else match Play(h, es[..|es|-1])
      case None => None
      case Some(f) => Step(f, es[|es|-1])
  }

  /** The derivations of a history, in order: derivation `n` creates handler `n + 1`. */
  function Derivations(es: seq<Event>): seq<(nat, Op)> {
    if es == [] then []
    else
      var last := es[|es|-1];
      Derivations(es[..|es|-1]) + if last.Derive? then [(last.from, last.op)] else []
  }

  ghost predicate Ordered(ds: seq<(nat, Op)>) {
    forall n :: 0 <= n < |ds| ==> ds[n].0 <= n
  }

  /** The derivations on the way from the first handler to handler `j`. */
  ghost function Path(ds: seq<(nat, Op)>, j: nat): seq<Op>
    requires j <= |ds| && Ordered(ds)
    decreases j
  {
    if j == 0 then [] else Path(ds, ds[j-1].0) + [ds[j-1].1]
  }

  /** Later derivations, siblings included, change no path. */
  lemma {:induction false} PathStable(ds: seq<(nat, Op)>, more: seq<(nat, Op)>, j: nat)
    requires j <= |ds| && Ordered(ds) && Ordered(ds + more)
    ensures Path(ds + more, j) == Path(ds, j)
    decreases j
  {
    if j > 0 {
      assert (ds + more)[j-1] == ds[j-1];
      PathStable(ds, more, ds[j-1].0);
    }
  }

  predicate IsLastSwap(es: seq<Event>, i: nat) {
    i < |es| && es[i].Swap? && forall k :: i < k < |es| ==> !es[k].Swap?
  }

  /** `root` is the handler of the last swap, or the first handler if there was none. */
  ghost predicate LastSwapped(h: Handler, es: seq<Event>, root: Handler) {
    && (forall i: nat :: IsLastSwap(es, i) ==> es[i].handler == root)
    && ((forall i :: 0 <= i < |es| ==> !es[i].Swap?) ==> root == h)
  }

  lemma {:induction false} PlayRoot(h: Handler, es: seq<Event>)
    requires Play(h, es).Some?
    ensures LastSwapped(h, es, Play(h, es).value.root)
  {
    if es != [] {
      var n := |es| - 1;
      var init := es[..n];
      PlayRoot(h, init);
      if !es[n].Swap? {
        forall i: nat | IsLastSwap(es, i) ensures es[i].handler == Play(h, init).value.root {
          assert IsLastSwap(init, i);
        }
      }
    }
  }

  lemma {:induction false} PlayPaths(h: Handler, es: seq<Event>)
    requires Play(h, es).Some?
    ensures var ds, ops := Derivations(es), Play(h, es).value.ops;
            |ops| == |ds| + 1 && Ordered(ds) && forall j :: 0 <= j < |ops| ==> ops[j] == Path(ds, j)
  {
    if es != [] {
      var n := |es| - 1;
      var init := es[..n];
      PlayPaths(h, init);
      var ds, was := Derivations(init), Play(h, init).value.ops;
      if es[n].Derive? {
        var more := [(es[n].from, es[n].op)];
        assert Ordered(ds + more);
        forall j | 0 <= j < |was| ensures Path(ds + more, j) == was[j] { PathStable(ds, more, j); }
        assert (ds + more)[|ds|] == more[0];
      } else {
        assert ds + [] == ds;
      }
    }
  }

  /** Whatever swaps and derivations came before, in whatever order, handler `j` behaves as the root last
      swapped in with the derivations on its own path applied directly: every leaf of that root, in order,
      each with exactly this path. */
  lemma DerivedTracksSwaps(h: Handler, es: seq<Event>, j: nat)
    requires Play(h, es).Some? && j < |Play(h, es).value.ops|
    ensures Ordered(Derivations(es)) && j <= |Derivations(es)|
    ensures var f := Play(h, es).value;
            && LastSwapped(h, es, f.root)
            && f.ops[j] == Path(Derivations(es), j)
            && Leaves(ApplyOps(f.root, f.ops[j])) == Carrying(Leaves(f.root), Path(Derivations(es), j))
  {
    PlayRoot(h, es);
    PlayPaths(h, es);
    ApplyOpsLeaves(Play(h, es).value.root, Play(h, es).value.ops[j]);
  }

  /** The objects follow the history: all share one root cell, and each keeps its own list. */
  method PlayObjects(h: Handler, es: seq<Event>) returns (handlers: seq<SwapHandler>)
    requires Play(h, es).Some?
    ensures var f := Play(h, es).value;
            && |handlers| == |f.ops|
            && forall j :: 0 <= j < |handlers| ==>
                 handlers[j].root == handlers[0].root && handlers[j].root.handler == f.root
                   && handlers[j].Ops() == f.ops[j]
  {
    var first := new SwapHandler(h);
    handlers := [first];
    for n := 0 to |es|
      invariant Play(h, es[..n]).Some?
      invariant 0 < |handlers| == |Play(h, es[..n]).value.ops| && fresh(first.root)
      invariant forall j :: 0 <= j < |handlers| ==> handlers[j].root == first.root
      invariant first.root.handler == Play(h, es[..n]).value.root && handlers[0] == first
      invariant forall j :: 0 <= j < |handlers| ==> handlers[j].Ops() == Play(h, es[..n]).value.ops[j]
    {
      PlayPrefix(h, es, n);
      match es[n]
      case Swap(root) => first.Swap(root);
      case Derive(from, op) =>
        var derived := handlers[from].With(op);
        handlers := handlers + [derived];
    }
    assert es[..|es|] == es;
  }

  lemma {:induction false} PlayPrefix(h: Handler, es: seq<Event>, n: nat)
    requires n < |es| && Play(h, es).Some?
    ensures Play(h, es[..n]).Some? && Play(h, es[..n+1]).Some?
    ensures Play(h, es[..n+1]) == Step(Play(h, es[..n]).value, es[n])
  {
    assert es[..n+1][..n] == es[..n];
    if n == |es| - 1 {
      assert es[..n+1] == es;
    } else {
      var init := es[..|es|-1];
      PlayPrefix(h, init, n);
      assert init[..n] == es[..n] && init[..n+1] == es[..n+1];
    }
  }
}
