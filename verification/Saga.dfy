/** The saga executor of pkg/workflow/saga: forward steps, then compensation.
    The world is any type `W`; an activity maps a world to the next one and an
    optional error, so every foreign outcome is covered by quantifying over activities. */
module Saga {
  import opened Common

  datatype Outcome<+W> = Outcome(world: W, err: Option<string>)

  type Activity<!W> = W -> Outcome<W>

  datatype Step<!W> = Step(action: Activity<W>, compensation: Option<Activity<W>>)

  /** "compensation i: cause" */
  datatype CompensationError = CompensationError(index: nat, cause: string)

  /** What Execute returns; `compensation` is empty when the compensation error is nil. */
  datatype Result =
    | Completed
    | StepFailed(index: nat, cause: string, compensation: seq<CompensationError>)

  datatype Options = Options(parallelCompensation: bool, continueOnError: bool)

  // ---------------------------------------------------------------- compensation

  predicate HasCompensation<W>(steps: seq<Step<W>>, i: nat) {
    i < |steps| && steps[i].compensation.Some?
  }

  /** Indices below `n` that have a compensation, highest first. */
  function Pending<W>(steps: seq<Step<W>>, n: nat): seq<nat> {
    if n == 0 then []
    else if HasCompensation(steps, n - 1) then [n-1] + Pending(steps, n - 1)
    else Pending(steps, n - 1)
  }

  lemma {:induction false} PendingIndices<W>(steps: seq<Step<W>>, n: nat)
    ensures forall k :: 0 <= k < |Pending(steps, n)| ==>
      Pending(steps, n)[k] < n && HasCompensation(steps, Pending(steps, n)[k])
    ensures forall i: nat :: i < n && HasCompensation(steps, i) ==> i in Pending(steps, n)
    ensures forall i, j :: 0 <= i < j < |Pending(steps, n)| ==> Pending(steps, n)[i] > Pending(steps, n)[j]
  {
    if n > 0 {
      PendingIndices(steps, n - 1);
    }
  }

  /** Compensation of step `i`; a step without one leaves the world alone. */
  function Compensate<W>(steps: seq<Step<W>>, i: nat, w: W): Outcome<W> {
    if HasCompensation(steps, i) then steps[i].compensation.value(w) else Outcome(w, None)
  }

  /** World after the compensations have completed in the given order. */
  function WorldAfter<W>(steps: seq<Step<W>>, order: seq<nat>, w: W): W {
    if order == [] then w
    else WorldAfter(steps, order[1..], Compensate(steps, order[0], w).world)
  }

  /** Error of each completed compensation. */
  function Outcomes<W>(steps: seq<Step<W>>, order: seq<nat>, w: W): map<nat, Option<string>> {
    if order == [] then map[]
    else
      var o := Compensate(steps, order[0], w);
      Outcomes(steps, order[1..], o.world)[order[0] := o.err]
  }

  lemma {:induction false} OutcomesDomain<W>(steps: seq<Step<W>>, order: seq<nat>, w: W, i: nat)
    ensures i in Outcomes(steps, order, w) <==> i in order
  {
    if order != [] {
      OutcomesDomain(steps, order[1..], Compensate(steps, order[0], w).world, i);
    }
  }

  /** The non-nil errors among `indices`, in that order. */
  function Errors(indices: seq<nat>, outcome: map<nat, Option<string>>): seq<CompensationError> {
    if indices == [] then []
    else ErrorOf(indices[0], outcome) + Errors(indices[1..], outcome)
  }

  function ErrorOf(i: nat, outcome: map<nat, Option<string>>): seq<CompensationError> {
    if i in outcome && outcome[i].Some? then [CompensationError(i, outcome[i].value)] else []
  }

  /** The compensations the sequential form attempts: all, or up to the first error. */
  function Attempted<W>(steps: seq<Step<W>>, pending: seq<nat>, continueOnError: bool, w: W): (a: seq<nat>)
    ensures a <= pending
    ensures continueOnError ==> a == pending
  {
    if pending == [] then []
    else
      var o := Compensate(steps, pending[0], w);
      if o.err.Some? && !continueOnError then [pending[0]]
      else [pending[0]] + Attempted(steps, pending[1..], continueOnError, o.world)
  }

  /** From world `w`, compensating i and j in either order gives the same world and the same errors. */
  ghost predicate CommuteAt<W>(steps: seq<Step<W>>, i: nat, j: nat, w: W) {
    var wi, wj := Compensate(steps, i, w), Compensate(steps, j, w);
    && Compensate(steps, i, wj.world).world == Compensate(steps, j, wi.world).world
    && Compensate(steps, i, wj.world).err == wi.err
    && Compensate(steps, j, wi.world).err == wj.err
  }

  ghost predicate Commute<W(!new)>(steps: seq<Step<W>>, i: nat, j: nat) {
    forall w: W :: CommuteAt(steps, i, j, w)
  }

  ghost predicate CompensationsCommute<W(!new)>(steps: seq<Step<W>>) {
    forall i: nat, j: nat :: i < |steps| && j < |steps| && i != j ==> Commute(steps, i, j)
  }

  lemma RunFirst<W>(steps: seq<Step<W>>, x: nat, rest: seq<nat>, w: W)
    ensures var o := Compensate(steps, x, w);
            && WorldAfter(steps, [x] + rest, w) == WorldAfter(steps, rest, o.world)
            && Outcomes(steps, [x] + rest, w) == Outcomes(steps, rest, o.world)[x := o.err]
  {
    assert ([x] + rest)[1..] == rest;
  }

  /** Two commuting compensations may be exchanged in front of any others. */
  lemma SwapFront<W(!new)>(steps: seq<Step<W>>, x: nat, y: nat, rest: seq<nat>, w: W)
    requires x != y && Commute(steps, x, y)
    ensures WorldAfter(steps, [x] + ([y] + rest), w) == WorldAfter(steps, [y] + ([x] + rest), w)
    ensures Outcomes(steps, [x] + ([y] + rest), w) == Outcomes(steps, [y] + ([x] + rest), w)
  {
    var wx, wy := Compensate(steps, x, w), Compensate(steps, y, w);
    assert CommuteAt(steps, x, y, w);
    RunFirst(steps, y, rest, wx.world);
    RunFirst(steps, x, rest, wy.world);
    RunFirst(steps, x, [y] + rest, w);
    RunFirst(steps, y, [x] + rest, w);
  }

  ghost predicate Within<W>(steps: seq<Step<W>>, order: seq<nat>) {
    forall i :: 0 <= i < |order| ==> order[i] < |steps|
  }

  /** Completing index `order[k]` first instead of k-th changes neither world nor outcomes. */
  lemma {:induction false} MoveToFront<W(!new)>(steps: seq<Step<W>>, order: seq<nat>, k: nat, w: W)
    requires Within(steps, order) && Distinct(order) && k < |order|
    requires CompensationsCommute(steps)
    ensures var front := [order[k]] + (order[..k] + order[k+1..]);
            && WorldAfter(steps, front, w) == WorldAfter(steps, order, w)
            && Outcomes(steps, front, w) == Outcomes(steps, order, w)
  {
    var x, y, tail := order[k], order[0], order[1..];
    if k == 0 {
      assert [x] + (order[..0] + order[1..]) == order;
    } else {
      var rest := tail[..k-1] + tail[k..];
      assert order == [y] + tail && order[..k] + order[k+1..] == [y] + rest;
      MoveToFront(steps, tail, k - 1, Compensate(steps, y, w).world);
      RunFirst(steps, y, tail, w);
      RunFirst(steps, y, [x] + rest, w);
      SwapFront(steps, x, y, rest, w);
    }
  }

  lemma RemainsDistinct<W>(steps: seq<Step<W>>, t: seq<nat>, k: nat)
    requires Within(steps, t) && Distinct(t) && k < |t|
    ensures Within(steps, t[..k] + t[k+1..]) && Distinct(t[..k] + t[k+1..])
  {
  }

  /** Any completion order of commuting compensations ends like any other, outcome by outcome. */
  lemma {:induction false} CompletionOrderIrrelevant<W(!new)>(steps: seq<Step<W>>, s: seq<nat>, t: seq<nat>, w: W)
    requires Within(steps, t) && Distinct(t) && Permutes(s, t)
    requires CompensationsCommute(steps)
    ensures WorldAfter(steps, s, w) == WorldAfter(steps, t, w)
    ensures Outcomes(steps, s, w) == Outcomes(steps, t, w)
  {
    if s == [] {
      assert |multiset(t)| == 0;
    } else {
      var k, rest := ExtractFirst(s, t);
      RemainsDistinct(steps, t, k);
      MoveToFront(steps, t, k, w);
      CompletionOrderIrrelevant(steps, s[1..], rest, Compensate(steps, s[0], w).world);
      RunFirst(steps, s[0], rest, w);
    }
  }

  lemma ExtractFirst<T>(s: seq<T>, t: seq<T>) returns (k: nat, rest: seq<T>)
    requires s != [] && Permutes(s, t)
    ensures k < |t| && t[k] == s[0]
    ensures rest == t[..k] + t[k+1..] && Permutes(s[1..], rest)
  {
    PermutesMember(s, t, s[0]);
    k :| 0 <= k < |t| && t[k] == s[0];
    rest := t[..k] + t[k+1..];
    PermutesRemove(s, t, k);
  }

  /** When no compensation's error depends on the world, every completion order has the same outcomes. */
  lemma {:induction false} FixedOutcomes<W(!new)>(steps: seq<Step<W>>, order: seq<nat>, w: W,
                                                  fixed: map<nat, Option<string>>)
    requires forall i: nat :: i in order ==> i in fixed
    requires forall i: nat, v: W :: i in order ==> Compensate(steps, i, v).err == fixed[i]
    ensures forall i: nat :: i in order ==> i in Outcomes(steps, order, w) && Outcomes(steps, order, w)[i] == fixed[i]
  {
    if order != [] {
      FixedOutcomes(steps, order[1..], Compensate(steps, order[0], w).world, fixed);
    }
  }

  lemma {:induction false} ErrorsAgree(indices: seq<nat>, a: map<nat, Option<string>>, b: map<nat, Option<string>>)
    requires forall i :: 0 <= i < |indices| ==> ErrorOf(indices[i], a) == ErrorOf(indices[i], b)
    ensures Errors(indices, a) == Errors(indices, b)
  {
    if indices != [] { ErrorsAgree(indices[1..], a, b); }
  }

  /** Running `i` first contributes its own error, then whatever the others report. */
  lemma FirstError<W>(steps: seq<Step<W>>, i: nat, rest: seq<nat>, w: W)
    requires i !in rest
    ensures var o := Compensate(steps, i, w);
            && WorldAfter(steps, [i] + rest, w) == WorldAfter(steps, rest, o.world)
            && Errors([i] + rest, Outcomes(steps, [i] + rest, w))
               == (if o.err.Some? then [CompensationError(i, o.err.value)] else [])
                  + Errors(rest, Outcomes(steps, rest, o.world))
  {
    RunFirst(steps, i, rest, w);
    assert ([i] + rest)[1..] == rest;
    forall k | 0 <= k < |rest| { OutcomesDomain(steps, rest, Compensate(steps, i, w).world, rest[k]); }
    ErrorsAgree(rest, Outcomes(steps, [i] + rest, w), Outcomes(steps, rest, Compensate(steps, i, w).world));
  }

  /** What the sequential form does from index `n - 1` down: final world and reported errors. */
  function SequentialFrom<W>(steps: seq<Step<W>>, continueOnError: bool, n: nat, w: W): (W, seq<CompensationError>) {
    var a := Attempted(steps, Pending(steps, n), continueOnError, w);
    (WorldAfter(steps, a, w), Errors(a, Outcomes(steps, a, w)))
  }

  lemma StopsAtError<W>(steps: seq<Step<W>>, n: nat, w: W)
    requires 0 < n <= |steps| && HasCompensation(steps, n - 1) && Compensate(steps, n - 1, w).err.Some?
    ensures var o := Compensate(steps, n - 1, w);
            SequentialFrom(steps, false, n, w) == (o.world, [CompensationError(n - 1, o.err.value)])
  {
    var o := Compensate(steps, n - 1, w);
    var pending := Pending(steps, n);
    assert pending[0] == n - 1;
    assert Attempted(steps, pending, false, w) == [n-1] + [];
    FirstError(steps, n - 1, [], w);
    assert [CompensationError(n - 1, o.err.value)] + [] == [CompensationError(n - 1, o.err.value)];
  }

  lemma AttemptsRest<W>(steps: seq<Step<W>>, continueOnError: bool, n: nat, w: W) returns (rest: seq<nat>)
    requires 0 < n <= |steps| && HasCompensation(steps, n - 1)
    requires continueOnError || Compensate(steps, n - 1, w).err.None?
    ensures rest == Attempted(steps, Pending(steps, n - 1), continueOnError, Compensate(steps, n - 1, w).world)
    ensures n - 1 !in rest && Attempted(steps, Pending(steps, n), continueOnError, w) == [n-1] + rest
  {
    var below := Pending(steps, n - 1);
    PendingIndices(steps, n - 1);
    assert ([n-1] + below)[1..] == below;
    rest := Attempted(steps, below, continueOnError, Compensate(steps, n - 1, w).world);
  }

  lemma GoesOn<W>(steps: seq<Step<W>>, continueOnError: bool, n: nat, w: W)
    requires 0 < n <= |steps| && HasCompensation(steps, n - 1)
    requires continueOnError || Compensate(steps, n - 1, w).err.None?
    ensures var o := Compensate(steps, n - 1, w);
            var (world, errs) := SequentialFrom(steps, continueOnError, n - 1, o.world);
            SequentialFrom(steps, continueOnError, n, w)
            == (world, (if o.err.Some? then [CompensationError(n - 1, o.err.value)] else []) + errs)
  {
    var rest := AttemptsRest(steps, continueOnError, n, w);
    FirstError(steps, n - 1, rest, w);
  }

  /** One turn of the sequential loop. */
  lemma SequentialStep<W>(steps: seq<Step<W>>, continueOnError: bool, n: nat, w: W)
    requires 0 < n <= |steps|
    ensures var o := Compensate(steps, n - 1, w);
            var (world, errs) := SequentialFrom(steps, continueOnError, n - 1, o.world);
            SequentialFrom(steps, continueOnError, n, w) ==
            match o.err
            case None => (world, errs)
            case Some(e) =>
              if continueOnError then (world, [CompensationError(n - 1, e)] + errs)
              else (o.world, [CompensationError(n - 1, e)])
  {
    var o := Compensate(steps, n - 1, w);
    if HasCompensation(steps, n - 1) {
      if o.err.Some? && !continueOnError {
        StopsAtError(steps, n, w);
      } else {
        GoesOn(steps, continueOnError, n, w);
        var errs := SequentialFrom(steps, continueOnError, n - 1, o.world).1;
        assert [] + errs == errs;
      }
    }
  }

  // ---------------------------------------------------------------- execution

  /** An order in which the futures of the scheduled compensations complete. */
  type Schedule = seq<nat> -> seq<nat>

  ghost predicate ValidSchedule(completionOrder: Schedule) {
    forall s :: Permutes(completionOrder(s), s)
  }

  function Compensation<W>(completed: seq<Step<W>>, opts: Options, completionOrder: Schedule,
                           w: W): (W, seq<CompensationError>) {
    if opts.parallelCompensation then
      var pending := Pending(completed, |completed|);
      var order := completionOrder(pending);
      (WorldAfter(completed, order, w), Errors(pending, Outcomes(completed, order, w)))
    else
      SequentialFrom(completed, opts.continueOnError, |completed|, w)
  }

  /** World and result of running the steps from the n-th on, all earlier ones having succeeded. */
  function ExecuteFrom<W>(steps: seq<Step<W>>, opts: Options, completionOrder: Schedule, n: nat, w: W): (W, Result)
    requires n <= |steps|
    decreases |steps| - n
  {
    if n == |steps| then (w, Completed)
    else
      var o := steps[n].action(w);
      match o.err
      case None => ExecuteFrom(steps, opts, completionOrder, n + 1, o.world)
      case Some(cause) =>
        var (world, errs) := Compensation(steps[..n], opts, completionOrder, o.world);
        (world, StepFailed(n, cause, errs))
  }

  class Saga<!W(!new)> {
    var steps: seq<Step<W>>
    const opts: Options

    constructor (opts: Options)
      ensures steps == [] && this.opts == opts
    {
      steps := [];
      this.opts := opts;
    }

    method AddStep(action: Activity<W>, compensation: Option<Activity<W>>)
      modifies this
      ensures steps == old(steps) + [Step(action, compensation)]
    {
      steps := steps + [Step(action, compensation)];
    }

    method Execute(w0: W, completionOrder: Schedule) returns (w: W, r: Result)
      requires ValidSchedule(completionOrder)
      ensures (w, r) == ExecuteFrom(steps, opts, completionOrder, 0, w0)
    {
      var completed := [];
      w := w0;
      var i := 0;
      while i < |steps|
        invariant 0 <= i <= |steps| && completed == steps[..i]
        invariant ExecuteFrom(steps, opts, completionOrder, 0, w0) == ExecuteFrom(steps, opts, completionOrder, i, w)
      {
        var o := steps[i].action(w);
        w := o.world;
        if o.err.Some? {
          var errs;
          w, errs := CompensateCompleted(completed, completionOrder, w);
          return w, StepFailed(i, o.err.value, errs);
        }
        completed := completed + [steps[i]];
        i := i + 1;
      }
      return w, Completed;
    }

    method CompensateCompleted(completed: seq<Step<W>>, completionOrder: Schedule, w0: W)
      returns (w: W, errs: seq<CompensationError>)
      requires ValidSchedule(completionOrder)
      ensures (w, errs) == Compensation(completed, opts, completionOrder, w0)
    {
      if |completed| == 0 {
        assert |multiset(completionOrder([]))| == 0;
        return w0, [];
      }
      if opts.parallelCompensation {
        w, errs := CompensateParallel(completed, completionOrder, w0);
      } else {
        w, errs := CompensateSequential(completed, w0);
      }
    }

    /** Reverse order; stops at the first error unless continueOnError. */
    method CompensateSequential(completed: seq<Step<W>>, w0: W) returns (w: W, errs: seq<CompensationError>)
      ensures (w, errs) == SequentialFrom(completed, opts.continueOnError, |completed|, w0)
    {
      w, errs := w0, [];
      ghost var all := SequentialFrom(completed, opts.continueOnError, |completed|, w0);
      var i := |completed|;
      while i > 0
        invariant 0 <= i <= |completed|
        invariant all.0 == SequentialFrom(completed, opts.continueOnError, i, w).0
        invariant all.1 == errs + SequentialFrom(completed, opts.continueOnError, i, w).1
      {
        SequentialStep(completed, opts.continueOnError, i, w);
        i := i - 1;
        var st := completed[i];
        if st.compensation.None? { continue; }
        var o := st.compensation.value(w);
        w := o.world;
        if o.err.Some? {
          errs := errs + [CompensationError(i, o.err.value)];
          if !opts.continueOnError { return; }
        }
      }
      assert SequentialFrom(completed, opts.continueOnError, 0, w) == (w, []);
      assert errs + [] == errs;
    }

    /** Schedule all, let them complete in `completionOrder`, then collect in scheduling order. */
    method CompensateParallel(completed: seq<Step<W>>, completionOrder: Schedule, w0: W)
      returns (w: W, errs: seq<CompensationError>)
      requires ValidSchedule(completionOrder)
      ensures var pending := Pending(completed, |completed|);
              var order := completionOrder(pending);
              && w == WorldAfter(completed, order, w0)
              && errs == Errors(pending, Outcomes(completed, order, w0))
    {
      var indices: seq<nat> := [];
      var i := |completed|;
      while i > 0
        invariant 0 <= i <= |completed|
        invariant Pending(completed, |completed|) == indices + Pending(completed, i)
      {
        i := i - 1;
        if completed[i].compensation.Some? {
          indices := indices + [i];
        }
      }
      var order := completionOrder(indices);
      var futures;
      w, futures := RunToCompletion(completed, indices, order, w0);
      errs := Collect(indices, futures);
    }
  }

  /** Get on each future, in scheduling order. */
  method Collect(indices: seq<nat>, futures: map<nat, Option<string>>) returns (errs: seq<CompensationError>)
    requires forall j :: 0 <= j < |indices| ==> indices[j] in futures
    ensures errs == Errors(indices, futures)
  {
    errs := [];
    for j := 0 to |indices|
      invariant Errors(indices, futures) == errs + Errors(indices[j..], futures)
    {
      var outcome := futures[indices[j]];
      ErrorsFrom(indices, j, futures);
      Associative(errs, ErrorOf(indices[j], futures), Errors(indices[j+1..], futures));
      if outcome.Some? {
        errs := errs + [CompensationError(indices[j], outcome.value)];
      }
    }
  }

  lemma ErrorsFrom(indices: seq<nat>, j: nat, outcome: map<nat, Option<string>>)
    requires j < |indices|
    ensures Errors(indices[j..], outcome) == ErrorOf(indices[j], outcome) + Errors(indices[j+1..], outcome)
  {
    assert indices[j..][1..] == indices[j+1..];
  }

  /** The workers: run every scheduled compensation, in completion order. */
  method RunToCompletion<W>(completed: seq<Step<W>>, indices: seq<nat>, order: seq<nat>, w0: W)
    returns (w: W, futures: map<nat, Option<string>>)
    requires indices == Pending(completed, |completed|) && Permutes(order, indices)
    ensures w == WorldAfter(completed, order, w0)
    ensures futures == Outcomes(completed, order, w0)
    ensures forall j :: 0 <= j < |indices| ==> indices[j] in futures
  {
    PendingIndices(completed, |completed|);
    PermutationOfDistinct(indices, order);
    futures := map[];
    w := w0;
    for k := 0 to |order|
      invariant WorldAfter(completed, order, w0) == WorldAfter(completed, order[k..], w)
      invariant Outcomes(completed, order, w0) == futures + Outcomes(completed, order[k..], w)
    {
      PermutesMember(order, indices, order[k]);
      var o := completed[order[k]].compensation.value(w);
      assert order[k..] == [order[k]] + order[k+1..];
      RunFirst(completed, order[k], order[k+1..], w);
      OutcomesDomain(completed, order[k+1..], o.world, order[k]);
      Overlay(futures, Outcomes(completed, order[k+1..], o.world), order[k], o.err);
      futures := futures[order[k] := o.err];
      w := o.world;
    }
    forall j | 0 <= j < |indices| ensures indices[j] in futures {
      PermutesMember(order, indices, indices[j]);
      OutcomesDomain(completed, order, w0, indices[j]);
    }
  }

  lemma Overlay<K, V>(m: map<K, V>, n: map<K, V>, k: K, v: V)
    requires k !in n
    ensures m + n[k := v] == m[k := v] + n
  {
  }

  lemma PermutationOfDistinct<T>(s: seq<T>, t: seq<T>)
    requires Distinct(s) && Permutes(t, s)
    ensures Distinct(t)
  {
    forall i, j | 0 <= i < j < |t| ensures t[i] != t[j] {
      DistinctCount(s, t[i]);
      assert t == t[..i] + [t[i]] + t[i+1..j] + [t[j]] + t[j+1..];
      assert t[i] == t[j] ==> multiset(t)[t[i]] >= 2;
    }
  }

  lemma {:induction false} DistinctCount<T>(s: seq<T>, x: T)
    requires Distinct(s)
    ensures multiset(s)[x] <= 1
  {
    if s != [] {
      assert s == [s[0]] + s[1..];
      DistinctCount(s[1..], x);
      assert x == s[0] ==> x !in s[1..];
    }
  }
}
