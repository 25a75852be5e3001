/** What a saga guarantees: exact results, refinement of the sequential form by the
    parallel one, and restoration of the world. */
module SagaTheorems {
  import opened Common
  import opened Saga

  /** World after the first `n` actions, if they all succeed. */
  function Forward<W>(steps: seq<Step<W>>, n: nat, w: W): Option<W>
    requires n <= |steps|
  {
    if n == 0 then Some(w)
    else match Forward(steps, n - 1, w)
      case None => None
      case Some(v) => if steps[n-1].action(v).err.None? then Some(steps[n-1].action(v).world) else None
  }

  /** One compensation that ran: the world it started from, and its outcome. */
  datatype Visit<+W> = Visit(index: nat, from: W, end: Outcome<W>)

  ghost predicate Ran<W>(steps: seq<Step<W>>, v: Visit<W>) {
    v.index < |steps| && steps[v.index].compensation.Some? && v.end == steps[v.index].compensation.value(v.from)
  }

  ghost predicate AllRan<W>(steps: seq<Step<W>>, vs: seq<Visit<W>>) { forall k :: 0 <= k < |vs| ==> Ran(steps, vs[k]) }

  /** The compensations ran one after the other, from world `w` to world `end`. */
  ghost predicate Chained<W>(vs: seq<Visit<W>>, w: W, end: W) {
    if vs == [] then w == end else vs[0].from == w && Chained(vs[1..], vs[0].end.world, end)
  }

  ghost predicate Visited<W>(vs: seq<Visit<W>>, j: nat) { exists k :: 0 <= k < |vs| && vs[k].index == j }

  /** The compensation of step `i` ran and failed with `cause`. */
  ghost predicate FailedWith<W>(vs: seq<Visit<W>>, i: nat, cause: string) {
    exists k :: 0 <= k < |vs| && vs[k].index == i && vs[k].end.err == Some(cause)
  }

  /** The reported errors, highest index first, are those of the compensations that failed and no others. */
  ghost predicate Reports<W>(vs: seq<Visit<W>>, errs: seq<CompensationError>) {
    && (forall a, b :: 0 <= a < b < |errs| ==> errs[a].index > errs[b].index)
    && (forall i: nat, cause: string :: CompensationError(i, cause) in errs <==> FailedWith(vs, i, cause))
  }

  /** A sequential walk below step `n`: downwards through every compensation there is, unless it stops at the first
      that fails. */
  ghost predicate SequentialWalk<W>(steps: seq<Step<W>>, continueOnError: bool, n: nat, vs: seq<Visit<W>>) {
    && AllRan(steps, vs) && Downwards(vs, n)
    && (forall j: nat :: j < n && j < |steps| && steps[j].compensation.Some? ==>
          Visited(vs, j) || (!continueOnError && StoppedAbove(vs, j)))
    && (!continueOnError ==> OnlyLastFails(vs))
  }

  ghost predicate Downwards<W>(vs: seq<Visit<W>>, n: nat) {
    && (forall k :: 0 <= k < |vs| ==> vs[k].index < n)
    && (forall a, b :: 0 <= a < b < |vs| ==> vs[a].index > vs[b].index)
  }

  ghost predicate OnlyLastFails<W>(vs: seq<Visit<W>>) { forall k :: 0 <= k < |vs| - 1 ==> vs[k].end.err.None? }

  /** The last compensation failed, and `j` lies below it. */
  ghost predicate StoppedAbove<W>(vs: seq<Visit<W>>, j: nat) {
    vs != [] && vs[|vs|-1].end.err.Some? && j < vs[|vs|-1].index
  }

  function Indices<W>(vs: seq<Visit<W>>): seq<nat> {
    seq(|vs|, k requires 0 <= k < |vs| => vs[k].index)
  }

  ghost predicate Descending(s: seq<nat>) { forall a, b :: 0 <= a < b < |s| ==> s[a] > s[b] }

  /** `s` lists the steps below `n` that have a compensation, highest first. */
  ghost predicate Schedules<W>(steps: seq<Step<W>>, n: nat, s: seq<nat>) {
    Descending(s) && forall j: nat :: j in s <==> j < n && j < |steps| && steps[j].compensation.Some?
  }

  /** A parallel walk below step `n`: every compensation there is, scheduled downwards, completing as they may. */
  ghost predicate ParallelWalk<W>(steps: seq<Step<W>>, order: Schedule, n: nat, vs: seq<Visit<W>>) {
    AllRan(steps, vs) && exists s: seq<nat> :: Schedules(steps, n, s) && Indices(vs) == order(s)
  }

  /** What the compensation of the steps below `n` did: it led from world `w` to `end` and reported `errs`. */
  ghost predicate RolledBack<W(!new)>(steps: seq<Step<W>>, opts: Options, order: Schedule, n: nat, w: W, end: W,
                                      errs: seq<CompensationError>) {
    exists vs: seq<Visit<W>> ::
      && (if opts.parallelCompensation then ParallelWalk(steps, order, n, vs)
          else SequentialWalk(steps, opts.continueOnError, n, vs))
      && Chained(vs, w, end) && Reports(vs, errs)
  }

  function OwnError<W>(v: Visit<W>): seq<CompensationError> {
    if v.end.err.Some? then [CompensationError(v.index, v.end.err.value)] else []
  }

  lemma FailedWithFirst<W>(v: Visit<W>, vs: seq<Visit<W>>, i: nat, cause: string)
    ensures FailedWith([v] + vs, i, cause) <==> (v.index == i && v.end.err == Some(cause)) || FailedWith(vs, i, cause)
  {
    var more := [v] + vs;
    assert more[0] == v;
    if k :| 0 <= k < |vs| && vs[k].index == i && vs[k].end.err == Some(cause) { assert more[k+1] == vs[k]; }
    if k :| 0 <= k < |more| && more[k].index == i && more[k].end.err == Some(cause) {
      assert k > 0 ==> vs[k-1] == more[k];
    }
  }

  lemma ReportsFirst<W>(v: Visit<W>, vs: seq<Visit<W>>, errs: seq<CompensationError>)
    requires Reports(vs, errs) && forall k :: 0 <= k < |vs| ==> vs[k].index < v.index
    ensures Reports([v] + vs, OwnError(v) + errs)
  {
    forall i: nat, cause: string
      ensures CompensationError(i, cause) in OwnError(v) + errs <==> FailedWith([v] + vs, i, cause)
    {
      FailedWithFirst(v, vs, i, cause);
    }
    forall e | e in errs ensures e.index < v.index {
      assert CompensationError(e.index, e.cause) in errs;
      var k :| 0 <= k < |vs| && vs[k].index == e.index && vs[k].end.err == Some(e.cause);
    }
  }

  lemma ChainedFirst<W>(v: Visit<W>, vs: seq<Visit<W>>, end: W)
    requires Chained(vs, v.end.world, end)
    ensures Chained([v] + vs, v.from, end)
  {
    assert ([v] + vs)[1..] == vs;
  }

  /** The walk `vs` is what the sequential form does from index `n - 1` down. */
  ghost predicate Walked<W>(steps: seq<Step<W>>, continueOnError: bool, n: nat, w: W, vs: seq<Visit<W>>) {
    var (end, errs) := SequentialFrom(steps, continueOnError, n, w);
    SequentialWalk(steps, continueOnError, n, vs) && Chained(vs, w, end) && Reports(vs, errs)
  }

  lemma {:induction false} SequentialWalks<W>(steps: seq<Step<W>>, continueOnError: bool, n: nat, w: W)
    returns (vs: seq<Visit<W>>)
    requires n <= |steps|
    ensures Walked(steps, continueOnError, n, w, vs)
  {
    if n == 0 {
      vs := [];
    } else if steps[n-1].compensation.None? {
      vs := SequentialWalks(steps, continueOnError, n - 1, w);
      WalkedPast(steps, continueOnError, n, w, vs);
    } else {
      var v := Visit(n - 1, w, steps[n-1].compensation.value(w));
      if continueOnError || v.end.err.None? {
        vs := SequentialWalks(steps, continueOnError, n - 1, v.end.world);
        WalkedOn(steps, continueOnError, n, v, vs);
        vs := [v] + vs;
      } else {
        WalkedTo(steps, n, v);
        vs := [v] + [];
      }
    }
  }

  lemma WalkedPast<W>(steps: seq<Step<W>>, continueOnError: bool, n: nat, w: W, vs: seq<Visit<W>>)
    requires 0 < n <= |steps| && steps[n-1].compensation.None? && Walked(steps, continueOnError, n - 1, w, vs)
    ensures Walked(steps, continueOnError, n, w, vs)
  {
    SequentialStep(steps, continueOnError, n, w);
    SkipsOne(steps, continueOnError, n, vs);
  }

  lemma WalkedOn<W>(steps: seq<Step<W>>, continueOnError: bool, n: nat, v: Visit<W>, vs: seq<Visit<W>>)
    requires 0 < n <= |steps| && v.index == n - 1 && Ran(steps, v) && (continueOnError || v.end.err.None?)
    requires Walked(steps, continueOnError, n - 1, v.end.world, vs)
    ensures Walked(steps, continueOnError, n, v.from, [v] + vs)
  {
    var (end, errs) := SequentialFrom(steps, continueOnError, n - 1, v.end.world);
    GoesOn(steps, continueOnError, n, v.from);
    GoesOnWith(steps, continueOnError, n, v, vs);
    ReportsFirst(v, vs, errs);
    ChainedFirst(v, vs, end);
  }

  lemma WalkedTo<W>(steps: seq<Step<W>>, n: nat, v: Visit<W>)
    requires 0 < n <= |steps| && v.index == n - 1 && Ran(steps, v) && v.end.err.Some?
    ensures Walked(steps, false, n, v.from, [v] + [])
  {
    StopsAtError(steps, n, v.from);
    StopsWith(steps, n, v);
    ReportsFirst(v, [], []);
    ChainedFirst(v, [], v.end.world);
    assert OwnError(v) + [] == OwnError(v);
  }

  lemma SkipsOne<W>(steps: seq<Step<W>>, continueOnError: bool, n: nat, vs: seq<Visit<W>>)
    requires 0 < n <= |steps| && steps[n-1].compensation.None? && SequentialWalk(steps, continueOnError, n - 1, vs)
    ensures SequentialWalk(steps, continueOnError, n, vs)
  {}

  lemma StopsWith<W>(steps: seq<Step<W>>, n: nat, v: Visit<W>)
    requires 0 < n <= |steps| && v.index == n - 1 && Ran(steps, v) && v.end.err.Some?
    ensures SequentialWalk(steps, false, n, [v] + [])
  {
    var vs := [v] + [];
    assert vs[0].index == n - 1;
    assert Visited(vs, n - 1);
  }

  lemma GoesOnWith<W>(steps: seq<Step<W>>, continueOnError: bool, n: nat, v: Visit<W>, vs: seq<Visit<W>>)
    requires 0 < n <= |steps| && SequentialWalk(steps, continueOnError, n - 1, vs)
    requires v.index == n - 1 && Ran(steps, v) && (continueOnError || v.end.err.None?)
    ensures SequentialWalk(steps, continueOnError, n, [v] + vs)
  {
    RanFirst(steps, n, v, vs);
    forall j: nat | j < n && j < |steps| && steps[j].compensation.Some?
      ensures Visited([v] + vs, j) || (!continueOnError && StoppedAbove([v] + vs, j))
    {
      VisitedFirst(v, vs, j);
    }
  }

  lemma RanFirst<W>(steps: seq<Step<W>>, n: nat, v: Visit<W>, vs: seq<Visit<W>>)
    requires n > 0 && AllRan(steps, vs) && Downwards(vs, n - 1) && v.index == n - 1 && Ran(steps, v)
    ensures AllRan(steps, [v] + vs) && Downwards([v] + vs, n)
    ensures OnlyLastFails(vs) && v.end.err.None? ==> OnlyLastFails([v] + vs)
  {}

  lemma VisitedFirst<W>(v: Visit<W>, vs: seq<Visit<W>>, j: nat)
    ensures v.index == j || Visited(vs, j) ==> Visited([v] + vs, j)
    ensures StoppedAbove(vs, j) ==> StoppedAbove([v] + vs, j)
  {
    var more := [v] + vs;
    assert more[0] == v;
    if k :| 0 <= k < |vs| && vs[k].index == j { assert more[k+1] == vs[k]; }
  }

  lemma {:induction false} OrderWalks<W>(steps: seq<Step<W>>, order: seq<nat>, w: W) returns (vs: seq<Visit<W>>)
    requires Distinct(order) && forall k :: 0 <= k < |order| ==> HasCompensation(steps, order[k])
    ensures AllRan(steps, vs) && Indices(vs) == order && Chained(vs, w, WorldAfter(steps, order, w))
    ensures forall k :: 0 <= k < |order| ==>
      order[k] in Outcomes(steps, order, w) && Outcomes(steps, order, w)[order[k]] == vs[k].end.err
  {
    vs := [];
    if order != [] {
      var o, rest := Compensate(steps, order[0], w), order[1..];
      var v := Visit(order[0], w, o);
      var later := OrderWalks(steps, rest, o.world);
      ChainedFirst(v, later, WorldAfter(steps, order, w));
      vs := [v] + later;
      FirstOutcome(steps, order, w, later);
    }
  }

  lemma FirstOutcome<W>(steps: seq<Step<W>>, order: seq<nat>, w: W, later: seq<Visit<W>>)
    requires order != [] && Distinct(order) && Indices(later) == order[1..]
    requires var o, rest := Compensate(steps, order[0], w), order[1..];
             forall k :: 0 <= k < |rest| ==>
               rest[k] in Outcomes(steps, rest, o.world) && Outcomes(steps, rest, o.world)[rest[k]] == later[k].end.err
    ensures var vs := [Visit(order[0], w, Compensate(steps, order[0], w))] + later;
            && Indices(vs) == order
            && forall k :: 0 <= k < |order| ==>
                 order[k] in Outcomes(steps, order, w) && Outcomes(steps, order, w)[order[k]] == vs[k].end.err
  {
    var vs := [Visit(order[0], w, Compensate(steps, order[0], w))] + later;
    forall k | 0 <= k < |order| ensures k == 0 || (vs[k] == later[k-1] && order[k] == order[1..][k-1]) {}
    assert Indices(vs) == order;
  }

  lemma {:induction false} ErrorsExact(indices: seq<nat>, outcome: map<nat, Option<string>>)
    requires Descending(indices)
    ensures forall e :: e in Errors(indices, outcome) <==>
      e.index in indices && e.index in outcome && outcome[e.index] == Some(e.cause)
    ensures forall a, b :: 0 <= a < b < |Errors(indices, outcome)| ==>
      Errors(indices, outcome)[a].index > Errors(indices, outcome)[b].index
  {
    if indices != [] {
      var first, rest := ErrorOf(indices[0], outcome), Errors(indices[1..], outcome);
      ErrorsExact(indices[1..], outcome);
      forall e | e in rest ensures e.index < indices[0] {
        var k :| 0 <= k < |indices[1..]| && indices[1..][k] == e.index;
      }
    }
  }

  lemma ParallelReports<W>(pending: seq<nat>, vs: seq<Visit<W>>, outcome: map<nat, Option<string>>)
    requires Descending(pending) && forall j: nat :: j in Indices(vs) <==> j in pending
    requires forall k :: 0 <= k < |vs| ==> vs[k].index in outcome && outcome[vs[k].index] == vs[k].end.err
    ensures Reports(vs, Errors(pending, outcome))
  {
    ErrorsExact(pending, outcome);
    forall i: nat, cause: string
      ensures CompensationError(i, cause) in Errors(pending, outcome) <==> FailedWith(vs, i, cause)
    {
      if i in pending {
        var k :| 0 <= k < |vs| && Indices(vs)[k] == i;
        assert vs[k].index == i;
      }
      if FailedWith(vs, i, cause) {
        var k :| 0 <= k < |vs| && vs[k].index == i && vs[k].end.err == Some(cause);
        assert Indices(vs)[k] == i;
      }
    }
  }

  lemma ParallelWalks<W>(completed: seq<Step<W>>, order: Schedule, w: W) returns (vs: seq<Visit<W>>)
    requires ValidSchedule(order)
    ensures ParallelWalk(completed, order, |completed|, vs)
    ensures var pending := Pending(completed, |completed|);
            Chained(vs, w, WorldAfter(completed, order(pending), w))
              && Reports(vs, Errors(pending, Outcomes(completed, order(pending), w)))
  {
    var pending := Pending(completed, |completed|);
    var completion := order(pending);
    PendingIndices(completed, |completed|);
    PermutationOfDistinct(pending, completion);
    forall j: nat ensures j in completion <==> j in pending { PermutesMember(completion, pending, j); }
    forall k | 0 <= k < |completion| ensures HasCompensation(completed, completion[k]) {
      assert completion[k] in pending;
    }
    vs := OrderWalks(completed, completion, w);
    assert forall k :: 0 <= k < |vs| ==> vs[k].index == Indices(vs)[k];
    ParallelReports(pending, vs, Outcomes(completed, completion, w));
    assert Schedules(completed, |completed|, pending);
  }

  /** A walk over the first `n` steps is one over all steps below `n`. */
  lemma PrefixWalk<W>(steps: seq<Step<W>>, opts: Options, order: Schedule, n: nat, vs: seq<Visit<W>>)
    requires n <= |steps|
    ensures SequentialWalk(steps[..n], opts.continueOnError, n, vs) ==>
      SequentialWalk(steps, opts.continueOnError, n, vs)
    ensures ParallelWalk(steps[..n], order, n, vs) ==> ParallelWalk(steps, order, n, vs)
  {
    var completed := steps[..n];
    assert AllRan(completed, vs) ==> AllRan(steps, vs) by {
      forall k | 0 <= k < |vs| && Ran(completed, vs[k]) ensures Ran(steps, vs[k]) {}
    }
    forall s: seq<nat> | Schedules(completed, n, s) ensures Schedules(steps, n, s) {
      assert forall j: nat :: j < n ==> completed[j] == steps[j];
    }
  }

  lemma CompensationRollsBack<W(!new)>(steps: seq<Step<W>>, opts: Options, order: Schedule, n: nat, w: W)
    requires n <= |steps| && (opts.parallelCompensation ==> ValidSchedule(order))
    ensures var (end, errs) := Compensation(steps[..n], opts, order, w); RolledBack(steps, opts, order, n, w, end, errs)
  {
    var vs;
    if opts.parallelCompensation {
      vs := ParallelWalks(steps[..n], order, w);
    } else {
      vs := SequentialWalks(steps[..n], opts.continueOnError, n, w);
    }
    PrefixWalk(steps, opts, order, n, vs);
  }

  /** Stopping at the first error, a saga reports at most one. */
  lemma ReportsAtMostOne<W>(steps: seq<Step<W>>, n: nat, vs: seq<Visit<W>>, errs: seq<CompensationError>)
    requires SequentialWalk(steps, false, n, vs) && Reports(vs, errs)
    ensures |errs| <= 1
  {
    if |errs| > 1 {
      LastFailed(vs, errs, 0);
      LastFailed(vs, errs, 1);
    }
  }

  lemma LastFailed<W>(vs: seq<Visit<W>>, errs: seq<CompensationError>, a: nat)
    requires OnlyLastFails(vs) && Reports(vs, errs) && a < |errs|
    ensures vs != [] && errs[a].index == vs[|vs|-1].index
  {
    assert CompensationError(errs[a].index, errs[a].cause) in errs;
    var k :| 0 <= k < |vs| && vs[k].index == errs[a].index && vs[k].end.err == Some(errs[a].cause);
  }

  /** Execute completes exactly when every action succeeds. Otherwise it names the first failing action and its
      cause, and from the world that action left it has walked back over the steps before it. */
  lemma {:induction false} ExecuteExact<W(!new)>(steps: seq<Step<W>>, opts: Options, order: Schedule, n: nat, w0: W,
                                                 w: W)
    requires n <= |steps| && Forward(steps, n, w0) == Some(w)
    requires opts.parallelCompensation ==> ValidSchedule(order)
    ensures var (world, r) := ExecuteFrom(steps, opts, order, n, w);
            && (r.Completed? <==> Forward(steps, |steps|, w0).Some?)
            && (r.Completed? ==> Forward(steps, |steps|, w0) == Some(world))
            && (r.StepFailed? ==>
                  && n <= r.index < |steps|
                  && Forward(steps, r.index, w0).Some?
                  && var o := steps[r.index].action(Forward(steps, r.index, w0).value);
                     o.err == Some(r.cause) && RolledBack(steps, opts, order, r.index, o.world, world, r.compensation))
    ensures var r := ExecuteFrom(steps, opts, order, n, w).1;
            r.StepFailed? && !opts.parallelCompensation && !opts.continueOnError ==> |r.compensation| <= 1
    decreases |steps| - n
  {
    if n < |steps| {
      var o := steps[n].action(w);
      if o.err.None? {
        ExecuteExact(steps, opts, order, n + 1, w0, o.world);
      } else {
        assert Forward(steps, n + 1, w0).None?;
        FailureSticks(steps, n + 1, |steps|, w0);
        CompensationRollsBack(steps, opts, order, n, o.world);
        var (end, errs) := Compensation(steps[..n], opts, order, o.world);
        if !opts.parallelCompensation && !opts.continueOnError {
          var vs: seq<Visit<W>> :| SequentialWalk(steps, false, n, vs) && Chained(vs, o.world, end)
            && Reports(vs, errs);
          ReportsAtMostOne(steps, n, vs, errs);
        }
      }
    }
  }

  lemma {:induction false} FailureSticks<W>(steps: seq<Step<W>>, n: nat, m: nat, w: W)
    requires n <= m <= |steps| && Forward(steps, n, w).None?
    ensures Forward(steps, m, w).None?
    decreases m - n
  {
    if n < m { FailureSticks(steps, n + 1, m, w); }
  }

  /** With commuting compensations, parallel compensation under any completion order gives the
      world and the error list of sequential continue-on-error. */
  lemma ParallelRefinesSequential<W(!new)>(completed: seq<Step<W>>, order: Schedule, continueOnError: bool, w: W)
    requires ValidSchedule(order) && CompensationsCommute(completed)
    ensures Compensation(completed, Options(true, continueOnError), order, w)
         == Compensation(completed, Options(false, true), order, w)
  {
    var pending := Pending(completed, |completed|);
    PendingIndices(completed, |completed|);
    CompletionOrderIrrelevant(completed, order(pending), pending, w);
  }

  /** The saga made of some of the steps, in some order, none used twice. */
  function Select<W>(steps: seq<Step<W>>, chosen: seq<nat>): seq<Step<W>>
    requires Within(steps, chosen)
  {
    seq(|chosen|, i requires 0 <= i < |chosen| => steps[chosen[i]])
  }

  /** Completing in `order`, parallel compensation gives the world and the errors of sequential continue-on-error. */
  ghost predicate MatchesSequential<W>(completed: seq<Step<W>>, order: seq<nat>, w: W) {
    (WorldAfter(completed, order, w), Errors(Pending(completed, |completed|), Outcomes(completed, order, w)))
    == SequentialFrom(completed, true, |completed|, w)
  }

  /** It does so for every list of completed steps of every saga over these steps, in every completion order of
      the scheduled compensations and from every world. */
  ghost predicate AlwaysMatches<W(!new)>(steps: seq<Step<W>>) {
    forall chosen: seq<nat>, order: seq<nat>, w: W ::
      Within(steps, chosen) && Distinct(chosen)
      && Permutes(order, Pending(Select(steps, chosen), |chosen|)) ==>
        MatchesSequential(Select(steps, chosen), order, w)
  }

  /** Parallel compensation is as good as sequential in every saga over these steps exactly when their
      compensations commute pairwise. */
  lemma CommuteIffAlwaysMatches<W(!new)>(steps: seq<Step<W>>)
    ensures CompensationsCommute(steps) <==> AlwaysMatches(steps)
  {
    if CompensationsCommute(steps) {
      forall chosen: seq<nat>, order: seq<nat>, w: W |
        Within(steps, chosen) && Distinct(chosen) && Permutes(order, Pending(Select(steps, chosen), |chosen|))
        ensures MatchesSequential(Select(steps, chosen), order, w)
      {
        SelectCommutes(steps, chosen);
        CommutingMatches(Select(steps, chosen), order, w);
      }
    }
    if AlwaysMatches(steps) {
      forall i: nat, j: nat | i < |steps| && j < |steps| && i != j ensures Commute(steps, i, j) {
        forall w: W ensures CommuteAt(steps, i, j, w) { MatchingCommutes(steps, i, j, w); }
      }
    }
  }

  lemma MatchingCommutes<W(!new)>(steps: seq<Step<W>>, i: nat, j: nat, w: W)
    requires AlwaysMatches(steps) && i < |steps| && j < |steps| && i != j
    ensures CommuteAt(steps, i, j, w)
  {
    if HasCompensation(steps, i) && HasCompensation(steps, j) {
      var chosen := [i, j];
      PairPending(Select(steps, chosen));
      assert MatchesSequential(Select(steps, chosen), [0, 1], w);
      PairCommutes(steps, i, j, w);
    }
  }

  lemma SelectCommutes<W(!new)>(steps: seq<Step<W>>, chosen: seq<nat>)
    requires CompensationsCommute(steps) && Within(steps, chosen) && Distinct(chosen)
    ensures CompensationsCommute(Select(steps, chosen))
  {
    var saga := Select(steps, chosen);
    forall i: nat, j: nat | i < |saga| && j < |saga| && i != j ensures Commute(saga, i, j) {
      assert Commute(steps, chosen[i], chosen[j]);
      forall w: W ensures CommuteAt(saga, i, j, w) { assert CommuteAt(steps, chosen[i], chosen[j], w); }
    }
  }

  lemma CommutingMatches<W(!new)>(completed: seq<Step<W>>, order: seq<nat>, w: W)
    requires CompensationsCommute(completed) && Permutes(order, Pending(completed, |completed|))
    ensures MatchesSequential(completed, order, w)
  {
    PendingIndices(completed, |completed|);
    CompletionOrderIrrelevant(completed, order, Pending(completed, |completed|), w);
  }

  lemma PairPending<W>(saga: seq<Step<W>>)
    requires |saga| == 2 && HasCompensation(saga, 0) && HasCompensation(saga, 1)
    ensures Pending(saga, 2) == [1, 0] && Permutes([0, 1], Pending(saga, 2))
  {
    assert Pending(saga, 1) == [0];
  }

  /** In a saga of two steps, completing in the order of the steps instead of the reverse tells whether the two
      compensations commute. */
  lemma PairCommutes<W(!new)>(steps: seq<Step<W>>, i: nat, j: nat, w: W)
    requires HasCompensation(steps, i) && HasCompensation(steps, j) && i != j
    requires MatchesSequential(Select(steps, [i, j]), [0, 1], w)
    ensures CommuteAt(steps, i, j, w)
  {
    var saga := Select(steps, [i, j]);
    PairPending(saga);
    RunPair(saga, 0, 1, w);
    RunPair(saga, 1, 0, w);
    var forward, backward := Outcomes(saga, [0, 1], w), Outcomes(saga, [1, 0], w);
    assert SequentialFrom(saga, true, 2, w) == (WorldAfter(saga, [1, 0], w), Errors([1, 0], backward));
    PairErrors(forward, backward);
    SamePair(steps, i, j, saga, w);
  }

  lemma SamePair<W>(steps: seq<Step<W>>, i: nat, j: nat, saga: seq<Step<W>>, w: W)
    requires HasCompensation(steps, i) && HasCompensation(steps, j) && saga == [steps[i], steps[j]]
    requires var wi, wj := Compensate(saga, 0, w), Compensate(saga, 1, w);
             && Compensate(saga, 1, wi.world).world == Compensate(saga, 0, wj.world).world
             && wi.err == Compensate(saga, 0, wj.world).err && wj.err == Compensate(saga, 1, wi.world).err
    ensures CommuteAt(steps, i, j, w)
  {
    assert saga[0] == steps[i] && saga[1] == steps[j];
  }

  /** The error list of two compensations tells the outcome of each. */
  lemma PairErrors(a: map<nat, Option<string>>, b: map<nat, Option<string>>)
    requires 0 in a && 1 in a && 0 in b && 1 in b && Errors([1, 0], a) == Errors([1, 0], b)
    ensures a[0] == b[0] && a[1] == b[1]
  {
    TwoErrors(a);
    TwoErrors(b);
    var x, y := ErrorOf(1, a), ErrorOf(1, b);
    var s, t := x + ErrorOf(0, a), y + ErrorOf(0, b);
    assert s == t;
    assert |x| == 1 ==> s[0] == x[0];
    assert |y| == 1 ==> t[0] == y[0];
    assert |x| == 0 ==> s == ErrorOf(0, a);
    assert |y| == 0 ==> t == ErrorOf(0, b);
    assert s[|x|..] == ErrorOf(0, a) && t[|y|..] == ErrorOf(0, b);
  }

  lemma TwoErrors(outcome: map<nat, Option<string>>)
    ensures Errors([1, 0], outcome) == ErrorOf(1, outcome) + ErrorOf(0, outcome)
  {
    assert [1, 0][1..] == [0] && [0][1..] == [];
    assert Errors([0], outcome) == ErrorOf(0, outcome) + [];
  }

  lemma RunPair<W>(steps: seq<Step<W>>, i: nat, j: nat, w: W)
    requires i != j
    ensures var o := Compensate(steps, i, w);
            var p := Compensate(steps, j, o.world);
            && WorldAfter(steps, [i, j], w) == p.world
            && Outcomes(steps, [i, j], w) == map[i := o.err, j := p.err]
  {
    RunFirst(steps, i, [j], w);
    RunFirst(steps, j, [], Compensate(steps, i, w).world);
    assert [i] + [j] == [i, j] && [j] + [] == [j];
  }

  /** Without any commutation: when outcomes do not depend on the world, the parallel form attempts
      exactly the sequential form's compensations and reports exactly its errors. */
  lemma ParallelReportsSequentialErrors<W(!new)>(completed: seq<Step<W>>, order: Schedule, w: W,
                                                 fixed: map<nat, Option<string>>)
    requires ValidSchedule(order)
    requires forall i: nat :: i < |completed| ==> i in fixed
    requires forall i: nat, v: W :: i < |completed| ==> Compensate(completed, i, v).err == fixed[i]
    ensures var pending := Pending(completed, |completed|);
            && Outcomes(completed, order(pending), w).Keys == Outcomes(completed, pending, w).Keys
            && Compensation(completed, Options(true, true), order, w).1
              == Compensation(completed, Options(false, true), order, w).1
  {
    var pending := Pending(completed, |completed|);
    var t := order(pending);
    PendingIndices(completed, |completed|);
    forall i: nat ensures i in t <==> i in pending { PermutesMember(t, pending, i); }
    FixedOutcomes(completed, t, w, fixed);
    FixedOutcomes(completed, pending, w, fixed);
    forall i: nat ensures i in Outcomes(completed, t, w) <==> i in Outcomes(completed, pending, w) {
      OutcomesDomain(completed, t, w, i);
      OutcomesDomain(completed, pending, w, i);
    }
    ErrorsAgree(pending, Outcomes(completed, t, w), Outcomes(completed, pending, w));
  }

  /** Stop-on-error reports exactly the first error that continue-on-error would report, and when
      there is none it ends in the same world. */
  lemma {:induction false} StopOnErrorReportsFirst<W>(steps: seq<Step<W>>, n: nat, w: W)
    requires n <= |steps|
    ensures var stop, all := SequentialFrom(steps, false, n, w), SequentialFrom(steps, true, n, w);
            && stop.1 == (if all.1 == [] then [] else [all.1[0]])
            && (all.1 == [] ==> stop.0 == all.0)
  {
    if n > 0 {
      SequentialStep(steps, false, n, w);
      SequentialStep(steps, true, n, w);
      StopOnErrorReportsFirst(steps, n - 1, Compensate(steps, n - 1, w).world);
    }
  }

  // ---------------------------------------------------------------- rollback

  /** A successful action is undone by its compensation; a missing one belongs to an action without effect. */
  ghost predicate Inverts<W(!new)>(st: Step<W>) {
    forall w: W :: st.action(w).err.None? ==>
      match st.compensation
      case Some(c) => c(st.action(w).world) == Outcome(w, None)
      case None => st.action(w).world == w
  }

  /** A failed action changes nothing. */
  ghost predicate FailsClean<W(!new)>(st: Step<W>) {
    forall w: W :: st.action(w).err.Some? ==> st.action(w).world == w
  }

  ghost predicate Reversible<W(!new)>(steps: seq<Step<W>>) {
    forall i :: 0 <= i < |steps| ==> Inverts(steps[i]) && FailsClean(steps[i])
  }

  lemma UndoesLast<W(!new)>(steps: seq<Step<W>>, n: nat, v: W)
    requires 0 < n <= |steps| && Reversible(steps) && steps[n-1].action(v).err.None?
    ensures Compensate(steps, n - 1, steps[n-1].action(v).world) == Outcome(v, None)
  {
    assert Inverts(steps[n-1]);
  }

  lemma SequentialBack<W>(steps: seq<Step<W>>, continueOnError: bool, n: nat, v: W, w: W)
    requires 0 < n <= |steps| && Compensate(steps, n - 1, w) == Outcome(v, None)
    ensures SequentialFrom(steps, continueOnError, n, w) == SequentialFrom(steps, continueOnError, n - 1, v)
  {
    SequentialStep(steps, continueOnError, n, w);
  }

  lemma {:induction false} SequentialRestores<W(!new)>(steps: seq<Step<W>>, continueOnError: bool, n: nat, w0: W, w: W)
    requires n <= |steps| && Reversible(steps) && Forward(steps, n, w0) == Some(w)
    ensures SequentialFrom(steps, continueOnError, n, w) == (w0, [])
  {
    if n > 0 {
      var v := Forward(steps, n - 1, w0).value;
      UndoesLast(steps, n, v);
      SequentialBack(steps, continueOnError, n, v, w);
      SequentialRestores(steps, continueOnError, n - 1, w0, v);
    }
  }

  lemma {:induction false} ForwardPrefix<W>(steps: seq<Step<W>>, n: nat, k: nat, w: W)
    requires k <= n <= |steps|
    ensures Forward(steps[..n], k, w) == Forward(steps, k, w)
  {
    if k > 0 { ForwardPrefix(steps, n, k - 1, w); }
  }

  lemma CommutePrefix<W(!new)>(steps: seq<Step<W>>, n: nat)
    requires n <= |steps| && CompensationsCommute(steps)
    ensures CompensationsCommute(steps[..n])
  {
    var p := steps[..n];
    forall i: nat, j: nat | i < n && j < n && i != j ensures Commute(p, i, j) {
      assert Commute(steps, i, j);
      forall w: W ensures CommuteAt(p, i, j, w) { assert CommuteAt(steps, i, j, w); }
    }
  }

  /** Rollback: whatever step fails, a failed Execute of reversible steps returns to the initial
      world with no compensation error. In the parallel form the compensations must commute. */
  lemma {:induction false} RollbackRestoresWorld<W(!new)>(steps: seq<Step<W>>, opts: Options, order: Schedule, n: nat,
                                                          w0: W, w: W)
    requires n <= |steps| && Reversible(steps) && Forward(steps, n, w0) == Some(w)
    requires opts.parallelCompensation ==> ValidSchedule(order) && CompensationsCommute(steps)
    ensures var (world, r) := ExecuteFrom(steps, opts, order, n, w);
            r.StepFailed? ==> world == w0 && r.compensation == []
    decreases |steps| - n
  {
    if n < |steps| {
      var o := steps[n].action(w);
      if o.err.None? {
        RollbackRestoresWorld(steps, opts, order, n + 1, w0, o.world);
      } else {
        assert FailsClean(steps[n]);
        var p := steps[..n];
        ForwardPrefix(steps, n, n, w0);
        SequentialRestores(p, opts.continueOnError, n, w0, w);
        SequentialRestores(p, true, n, w0, w);
        if opts.parallelCompensation {
          CommutePrefix(steps, n);
          ParallelRefinesSequential(p, order, opts.continueOnError, w);
        }
      }
    }
  }

  // Two reversible steps, add one and negate, and a third that fails.

  function AddOne(): Step<int> {
    Step((w: int) => Outcome(w + 1, None), Some((w: int) => Outcome(w - 1, None)))
  }

  function Negate(): Step<int> {
    Step((w: int) => Outcome(-w, None), Some((w: int) => Outcome(-w, None)))
  }

  function Refuse(): Step<int> {
    Step((w: int) => Outcome(w, Some("down")), None)
  }

  lemma AddOneReverses()
    ensures Inverts(AddOne()) && FailsClean(AddOne())
  {
    forall w: int ensures AddOne().compensation.value(AddOne().action(w).world) == Outcome(w, None) {}
  }

  lemma NegateReverses()
    ensures Inverts(Negate()) && FailsClean(Negate())
  {
    forall w: int ensures Negate().compensation.value(Negate().action(w).world) == Outcome(w, None) {}
  }

  lemma RefuseReverses()
    ensures Inverts(Refuse()) && FailsClean(Refuse())
  {
  }

  lemma ExampleReversible()
    ensures Reversible([AddOne(), Negate(), Refuse()])
  {
    var steps := [AddOne(), Negate(), Refuse()];
    forall i | 0 <= i < |steps| ensures Inverts(steps[i]) && FailsClean(steps[i]) {
      if i == 0 { AddOneReverses(); } else if i == 1 { NegateReverses(); } else { RefuseReverses(); }
    }
  }

  lemma AddThenNegate(order: Schedule, w: int)
    requires order([1, 0]) == [0, 1]
    ensures Compensation([AddOne(), Negate()], Options(true, false), order, w) == (1 - w, [])
  {
    var p := [AddOne(), Negate()];
    assert Pending(p, 1) == [0];
    assert Pending(p, 2) == [1, 0];
    RunFirst(p, 0, [1], w);
    RunFirst(p, 1, [], w - 1);
    assert [0] + [1] == [0, 1] && [1] + [] == [1];
    var outcome := Outcomes(p, [0, 1], w);
    assert Errors([0], outcome) == ErrorOf(0, outcome) + Errors([], outcome);
    assert Errors([1, 0], outcome) == ErrorOf(1, outcome) + Errors([0], outcome);
  }

  lemma ThirdStepFails(opts: Options, order: Schedule, w: int)
    ensures var (world, errs) := Compensation([AddOne(), Negate()], opts, order, -w - 1);
            ExecuteFrom([AddOne(), Negate(), Refuse()], opts, order, 0, w) == (world, StepFailed(2, "down", errs))
  {
    var steps := [AddOne(), Negate(), Refuse()];
    assert steps[..2] == [AddOne(), Negate()];
    var r := ExecuteFrom(steps, opts, order, 2, -w - 1);
    assert ExecuteFrom(steps, opts, order, 1, w + 1) == r;
  }

  lemma {:induction false} ReversePermutes<T>(s: seq<T>)
    ensures Permutes(Reverse(s), s)
  {
    if s != [] {
      ReversePermutes(s[1..]);
      assert s == [s[0]] + s[1..];
    }
  }

  /** The reverse of the order of scheduling is an order in which futures may complete. */
  lemma StepOrderIsASchedule()
    ensures ValidSchedule(Reverse) && Reverse<nat>([1, 0]) == [0, 1]
  {
    forall s: seq<nat> ensures Permutes(Reverse(s), s) { ReversePermutes(s); }
  }

  /** Commutation is needed: when the futures complete in the order of the steps, the sequential form restores
      the world of these reversible steps from every world, and the parallel form from none. */
  lemma ParallelNeedsCommutation(w: int)
    ensures var steps, order := [AddOne(), Negate(), Refuse()], Reverse<nat>;
            && Reversible(steps) && ValidSchedule(order)
            && ExecuteFrom(steps, Options(false, false), order, 0, w) == (w, StepFailed(2, "down", []))
            && ExecuteFrom(steps, Options(true, false), order, 0, w) == (w + 2, StepFailed(2, "down", []))
  {
    var steps, order := [AddOne(), Negate(), Refuse()], Reverse<nat>;
    StepOrderIsASchedule();
    ExampleReversible();
    assert Forward(steps, 0, w) == Some(w);
    RollbackRestoresWorld(steps, Options(false, false), order, 0, w, w);
    ThirdStepFails(Options(false, false), order, w);
    ThirdStepFails(Options(true, false), order, w);
    AddThenNegate(order, -w - 1);
  }
}
