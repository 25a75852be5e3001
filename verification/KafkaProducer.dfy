/** The producer of pkg/broker/kafka: the hook pipeline, Publish and PublishBatch. */
module KafkaProducer {
  import opened Common
  import opened KafkaHeaders

  // ---------------------------------------------------------------- messages and hooks

  /** A message holds references to the bytes of its key and payload and to its header map, so messages can share
      them. */
  datatype Message = Message(topic: string, key: nat, value: nat, headers: nat)

  /** Everything hooks can read or change besides their message: all header maps and byte slices, and state of
      their own. */
  datatype World<S> = World(maps: map<nat, map<string, string>>, bytes: map<nat, string>, hookState: S)

  /** A hook gets the message through a pointer. */
  datatype HookResult<S> = HookResult(world: World<S>, msg: Message, err: Option<string>)

  /** What a hook's context holds that differs from one publish to another: the span. */
  type Context = Option<Span>

  type Hook<!S> = (Context, World<S>, Message) -> HookResult<S>

  /** A missing map is Go's nil map. */
  function HeadersOf<S>(w: World<S>, msg: Message): map<string, string> {
    if msg.headers in w.maps then w.maps[msg.headers] else map[]
  }

  /** A missing slice is Go's nil slice. */
  function BytesOf<S>(w: World<S>, slice: nat): string {
    if slice in w.bytes then w.bytes[slice] else ""
  }

  /** The hooks in registration order, up to the first that fails. */
  function RunHooks<S>(hooks: seq<Hook<S>>, ctx: Context, w: World<S>, msg: Message): HookResult<S> {
    if hooks == [] then HookResult(w, msg, None)
    else
      var r := RunHooks(hooks[..|hooks|-1], ctx, w, msg);
      if r.err.Some? then r else hooks[|hooks|-1](ctx, r.world, r.msg)
  }

  lemma {:induction false} HooksStop<S>(hooks: seq<Hook<S>>, ctx: Context, i: nat, w: World<S>, msg: Message)
    requires i <= |hooks| && RunHooks(hooks[..i], ctx, w, msg).err.Some?
    ensures RunHooks(hooks, ctx, w, msg) == RunHooks(hooks[..i], ctx, w, msg)
  {
    if i == |hooks| {
      assert hooks[..i] == hooks;
    } else {
      var n := |hooks| - 1;
      assert hooks[..n][..i] == hooks[..i];
      HooksStop(hooks[..n], ctx, i, w, msg);
    }
  }

  /** The hooks one after the other: each gets the world and the message that the one before it left, and the last of
      these is the one that fails or the one registered last. */
  ghost predicate HookRun<S>(hooks: seq<Hook<S>>, ctx: Context, rs: seq<HookResult<S>>) {
    && 0 < |rs| <= |hooks| + 1
    && (forall i :: 0 <= i < |rs| - 1 ==> rs[i].err.None? && rs[i+1] == hooks[i](ctx, rs[i].world, rs[i].msg))
    && (rs[|rs|-1].err.None? ==> |rs| == |hooks| + 1)
  }

  lemma {:induction false} RunHooksExact<S>(hooks: seq<Hook<S>>, ctx: Context, w: World<S>, msg: Message)
    returns (rs: seq<HookResult<S>>)
    ensures HookRun(hooks, ctx, rs)
    ensures rs[0] == HookResult(w, msg, None) && rs[|rs|-1] == RunHooks(hooks, ctx, w, msg)
  {
    if hooks == [] {
      rs := [HookResult(w, msg, None)];
    } else {
      var n := |hooks| - 1;
      rs := RunHooksExact(hooks[..n], ctx, w, msg);
      var last := rs[|rs|-1];
      if last.err.None? {
        var next := hooks[n](ctx, last.world, last.msg);
        assert |rs| == n + 1 && (rs + [next])[n] == last;
        rs := rs + [next];
      }
    }
  }

  // ---------------------------------------------------------------- what is written

  /** A message as it leaves the hooks: its headers are copied at that moment, the bytes of its key and payload are
      not. */
  datatype Draft = Draft(topic: string, key: nat, value: nat, user: map<string, string>)

  /** What a draft comes to with the bytes of one moment. */
  datatype Out = Out(topic: string, key: string, value: string, user: map<string, string>)

  /** The client's message, and the message it writes. */
  datatype Prepared = Prepared(topic: string, key: nat, value: nat, headers: Headers)

  datatype Wire = Wire(topic: string, key: string, value: string, headers: Headers)

  function DraftOf<S>(r: HookResult<S>): Draft {
    Draft(r.msg.topic, r.msg.key, r.msg.value, HeadersOf(r.world, r.msg))
  }

  function OutAt<S>(w: World<S>, d: Draft): Out {
    Out(d.topic, BytesOf(w, d.key), BytesOf(w, d.value), d.user)
  }

  function OutsAt<S>(w: World<S>, drafts: seq<Draft>): seq<Out> {
    seq(|drafts|, i requires 0 <= i < |drafts| => OutAt(w, drafts[i]))
  }

  function OutOf<S>(r: HookResult<S>): Out { OutAt(r.world, DraftOf(r)) }

  function WireAt<S>(w: World<S>, p: Prepared): Wire {
    Wire(p.topic, BytesOf(w, p.key), BytesOf(w, p.value), p.headers)
  }

  function WiresAt<S>(w: World<S>, prepared: seq<Prepared>): seq<Wire> {
    seq(|prepared|, i requires 0 <= i < |prepared| => WireAt(w, prepared[i]))
  }

  /** `p` prepares `d`, with the trace headers of `span` laid over its headers and no key twice. */
  ghost predicate Prepares(p: Prepared, d: Draft, span: Option<Span>) {
    && (p.topic, p.key, p.value) == (d.topic, d.key, d.value)
    && DistinctKeys(p.headers)
    && LastMap(p.headers) == d.user + LastMap(TraceHeaders(span))
  }

  ghost predicate PreparesAll(prepared: seq<Prepared>, drafts: seq<Draft>, span: Option<Span>) {
    |prepared| == |drafts| && forall i :: 0 <= i < |prepared| ==> Prepares(prepared[i], drafts[i], span)
  }

  /** `wire` carries `out`, with the trace headers of `span` laid over its headers and no key twice. */
  ghost predicate Carries(wire: Wire, out: Out, span: Option<Span>) {
    && (wire.topic, wire.key, wire.value) == (out.topic, out.key, out.value)
    && DistinctKeys(wire.headers)
    && LastMap(wire.headers) == out.user + LastMap(TraceHeaders(span))
  }

  /** `wire` is message `m` with the bytes and the headers it has in world `v`, the trace headers laid over. */
  ghost predicate WireOf<S>(wire: Wire, v: World<S>, m: Message, span: Option<Span>) {
    && wire.topic == m.topic && IsBytes(v, m.key, wire.key) && IsBytes(v, m.value, wire.value)
    && DistinctKeys(wire.headers)
    && (m.headers in v.maps ==> LastMap(wire.headers) == v.maps[m.headers] + LastMap(TraceHeaders(span)))
    && (m.headers !in v.maps ==> LastMap(wire.headers) == LastMap(TraceHeaders(span)))
  }

  ghost predicate IsBytes<S>(v: World<S>, slice: nat, bytes: string) {
    (slice in v.bytes ==> bytes == v.bytes[slice]) && (slice !in v.bytes ==> bytes == "")
  }

  lemma CarriesIsWireOf<S>(wire: Wire, r: HookResult<S>, span: Option<Span>)
    ensures Carries(wire, OutOf(r), span) <==> WireOf(wire, r.world, r.msg, span)
  {
    var trace := LastMap(TraceHeaders(span));
    assert map[] + trace == trace;
  }

  // ---------------------------------------------------------------- publishing as functions

  /** The hook stage of PublishBatch: it stops at the first hook that fails. */
  datatype Stage<S> = Stage(world: World<S>, drafts: seq<Draft>, err: Option<string>)

  /** What the drafts come to when the batch is written, after the last hook. */
  function OutsOf<S>(stage: Stage<S>): seq<Out> { OutsAt(stage.world, stage.drafts) }

  function BatchStage<S>(hooks: seq<Hook<S>>, ctx: Context, w: World<S>, msgs: seq<Message>): Stage<S> {
    if msgs == [] then Stage(w, [], None)
    else
      var before := BatchStage(hooks, ctx, w, msgs[..|msgs|-1]);
      if before.err.Some? then before
      else
        var r := RunHooks(hooks, ctx, before.world, msgs[|msgs|-1]);
        if r.err.Some? then Stage(r.world, before.drafts, r.err)
        else Stage(r.world, before.drafts + [DraftOf(r)], None)
  }

  lemma {:induction false} StageStops<S>(hooks: seq<Hook<S>>, ctx: Context, w: World<S>, msgs: seq<Message>, i: nat)
    requires i <= |msgs| && BatchStage(hooks, ctx, w, msgs[..i]).err.Some?
    ensures BatchStage(hooks, ctx, w, msgs) == BatchStage(hooks, ctx, w, msgs[..i])
  {
    if i == |msgs| {
      assert msgs[..i] == msgs;
    } else {
      var n := |msgs| - 1;
      assert msgs[..n][..i] == msgs[..i];
      StageStops(hooks, ctx, w, msgs[..n], i);
    }
  }

  /** One call of Publish per message, each with a context of its own: the world after them, and for each the
      message written or the error. */
  datatype Each<S> = Each(world: World<S>, results: seq<Published>)

  datatype Published = Wrote(out: Out) | HookError(err: string)

  function ResultOf<S>(r: HookResult<S>): Published {
    if r.err.Some? then HookError(r.err.value) else Wrote(OutOf(r))
  }

  function PublishEach<S>(hooks: seq<Hook<S>>, ctxs: seq<Context>, w: World<S>, msgs: seq<Message>): Each<S>
    requires |ctxs| == |msgs|
  {
    if msgs == [] then Each(w, [])
    else
      var n := |msgs| - 1;
      var before := PublishEach(hooks, ctxs[..n], w, msgs[..n]);
      var r := RunHooks(hooks, ctxs[n], before.world, msgs[n]);
      Each(r.world, before.results + [ResultOf(r)])
  }

  // ---------------------------------------------------------------- the producer

  datatype Error = NoBrokers | NotStarted | AlreadyStarted | HookFailed(err: string)
    | WriteFailed(topic: string, err: string)
    | BatchWriteFailed(err: string) | CloseFailed(err: string)

  /** A write that fails may have been accepted in part. */
  datatype WriteFailure = WriteFailure(err: string, accepted: nat -> bool)

  predicate AcceptedAt(failure: Option<WriteFailure>, i: nat) {
    failure.None? || failure.value.accepted(i)
  }

  predicate AcceptsAll(failure: Option<WriteFailure>, n: nat) { forall i: nat :: i < n ==> AcceptedAt(failure, i) }

  predicate AcceptsNone(failure: Option<WriteFailure>, n: nat) { forall i: nat :: i < n ==> !AcceptedAt(failure, i) }

  /** The messages of a write that get through, in order. */
  function Accepted(wires: seq<Wire>, failure: Option<WriteFailure>): seq<Wire> {
    if wires == [] then []
    else
      var n := |wires| - 1;
      Accepted(wires[..n], failure) + if AcceptedAt(failure, n) then [wires[n]] else []
  }

  lemma {:induction false} AllAccepted(wires: seq<Wire>)
    ensures Accepted(wires, None) == wires
  {
    if wires != [] {
      var n := |wires| - 1;
      AllAccepted(wires[..n]);
      assert wires == wires[..n] + [wires[n]];
    }
  }

  lemma OneAccepted(wire: Wire, failure: Option<WriteFailure>)
    ensures Accepted([wire], failure) == if AcceptedAt(failure, 0) then [wire] else []
  {
    var wires := [wire];
    assert wires[..0] == [];
  }

  lemma {:induction false} AcceptedLength(wires: seq<Wire>, failure: Option<WriteFailure>)
    ensures |Accepted(wires, failure)| <= |wires|
    ensures |Accepted(wires, failure)| == |wires| <==> AcceptsAll(failure, |wires|)
    ensures |Accepted(wires, failure)| == 0 <==> AcceptsNone(failure, |wires|)
  {
    if wires != [] {
      var n := |wires| - 1;
      AcceptedLength(wires[..n], failure);
    }
  }

  /** How many of the first `i` messages get through. */
  function AcceptedBefore(failure: Option<WriteFailure>, i: nat): nat {
    if i == 0 then 0 else AcceptedBefore(failure, i - 1) + if AcceptedAt(failure, i - 1) then 1 else 0
  }

  lemma {:induction false} AcceptedCount(wires: seq<Wire>, failure: Option<WriteFailure>)
    ensures |Accepted(wires, failure)| == AcceptedBefore(failure, |wires|)
  {
    if wires != [] { AcceptedCount(wires[..|wires|-1], failure); }
  }

  /** What gets through keeps its order: each accepted message stands behind the accepted ones before it. */
  lemma {:induction false} AcceptedInOrder(wires: seq<Wire>, failure: Option<WriteFailure>, i: nat)
    requires i < |wires| && AcceptedAt(failure, i)
    ensures AcceptedBefore(failure, i) < |Accepted(wires, failure)|
    ensures Accepted(wires, failure)[AcceptedBefore(failure, i)] == wires[i]
  {
    var n := |wires| - 1;
    if i < n { AcceptedInOrder(wires[..n], failure, i); } else { AcceptedCount(wires[..n], failure); }
  }

  /** The foreign writer: the messages it has acknowledged, oldest first. */
  class Writer {
    var written: seq<Wire>

    constructor ()
      ensures written == []
    {
      written := [];
    }

    /** WriteMessages reads the bytes of the messages; what gets through when it fails is not this module's to
        decide. */
    method WriteMessages<S>(w: World<S>, messages: seq<Prepared>, failure: Option<WriteFailure>)
      modifies this
      ensures written == old(written) + Accepted(WiresAt(w, messages), failure)
    {
      written := written + Accepted(WiresAt(w, messages), failure);
    }
  }

  class Producer<!S> {
    var writer: Writer?
    const hooks: seq<Hook<S>>

    constructor (hooks: seq<Hook<S>>)
      ensures writer == null && this.hooks == hooks
    {
      writer := null;
      this.hooks := hooks;
    }

    /** NewProducer: without a broker address there is no producer. */
    static method Create(brokers: seq<string>, hooks: seq<Hook<S>>) returns (p: Producer?<S>, err: Option<Error>)
      ensures err == if brokers == [] then Some(NoBrokers) else None
      ensures p == null <==> brokers == []
      ensures p != null ==> fresh(p) && p.writer == null && p.hooks == hooks
    {
      if |brokers| == 0 { return null, Some(NoBrokers); }
      p := new Producer(hooks);
      return p, None;
    }

    method Start() returns (err: Option<Error>)
      modifies this
      ensures old(writer) != null ==> err == Some(AlreadyStarted) && writer == old(writer)
      ensures old(writer) == null ==> err == None && writer != null && fresh(writer) && writer.written == []
    {
      if writer != null { return Some(AlreadyStarted); }
      writer := new Writer();
      return None;
    }

    /** The writer is dropped even if closing it fails. */
    method Stop(closeFailure: Option<string>) returns (err: Option<Error>)
      modifies this
      ensures writer == null
      ensures err == if old(writer) == null || closeFailure.None? then None else Some(CloseFailed(closeFailure.value))
    {
      if writer == null { return None; }
      writer := null;
      return if closeFailure.Some? then Some(CloseFailed(closeFailure.value)) else None;
    }

    /** The hook loop of both publishing methods. */
    method RunPipeline(ctx: Context, w: World<S>, msg: Message) returns (r: HookResult<S>)
      ensures r == RunHooks(hooks, ctx, w, msg)
    {
      r := HookResult(w, msg, None);
      for i := 0 to |hooks|
        invariant r == RunHooks(hooks[..i], ctx, w, msg) && r.err.None?
      {
        r := hooks[i](ctx, r.world, r.msg);
        assert hooks[..i+1][..i] == hooks[..i];
        if r.err.Some? {
          HooksStop(hooks, ctx, i + 1, w, msg);
          return;
        }
      }
      assert hooks[..|hooks|] == hooks;
    }

    /** The client's message: headers listed in any order, then the trace headers set over them. */
    method Prepare(w: World<S>, msg: Message, span: Option<Span>) returns (p: Prepared)
      ensures (p.topic, p.key, p.value) == (msg.topic, msg.key, msg.value)
      ensures DistinctKeys(p.headers) && LastMap(p.headers) == HeadersOf(w, msg) + LastMap(TraceHeaders(span))
    {
      var listed := ListHeaders(HeadersOf(w, msg));
      var headers := InjectTraceContext(span, listed);
      EndToEnd(HeadersOf(w, msg), listed, span);
      p := Prepared(msg.topic, msg.key, msg.value, headers);
    }

    /** The hooks' context and the trace headers hold the publish's own span. */
    method Publish(w: World<S>, msg: Message, span: Option<Span>, writeFailure: Option<WriteFailure>)
      returns (after: World<S>, err: Option<Error>)
      modifies writer
      ensures writer == null ==> err == Some(NotStarted) && after == w
      ensures writer != null ==>
                var each := PublishEach(hooks, [span], w, [msg]);
                && after == each.world
                && (each.results[0].HookError? ==>
                      err == Some(HookFailed(each.results[0].err)) && writer.written == old(writer.written))
                && (each.results[0].Wrote? ==>
                      exists wire :: Carries(wire, each.results[0].out, span) && writer.written
                        == old(writer.written) + (if AcceptedAt(writeFailure, 0) then [wire] else []))
                && (each.results[0].Wrote? && writeFailure.Some? ==>
                      err == Some(WriteFailed(each.results[0].out.topic, writeFailure.value.err)))
                && (err.None? <==> each.results[0].Wrote? && writeFailure.None?)
      ensures writer != null ==>
                var r := RunHooks(hooks, span, w, msg);
                && after == r.world
                && (r.err.Some? ==> err == Some(HookFailed(r.err.value)) && writer.written == old(writer.written))
                && (r.err.None? ==>
                      exists wire :: WireOf(wire, r.world, r.msg, span) && writer.written
                        == old(writer.written) + (if AcceptedAt(writeFailure, 0) then [wire] else []))
    {
      if writer == null { return w, Some(NotStarted); }
      EachOne(hooks, span, w, msg);
      var r := RunPipeline(span, w, msg);
      if r.err.Some? { return r.world, Some(HookFailed(r.err.value)); }
      var p := Prepare(r.world, r.msg, span);
      OnePrepared(r.world, p, DraftOf(r), span, writeFailure);
      CarriesIsWireOf(WireAt(r.world, p), r, span);
      writer.WriteMessages(r.world, [p], writeFailure);
      return r.world, if writeFailure.Some? then Some(WriteFailed(r.msg.topic, writeFailure.value.err)) else None;
    }

    /** One span, the caller's, for the whole batch. */
    method PublishBatch(w: World<S>, msgs: seq<Message>, span: Option<Span>, writeFailure: Option<WriteFailure>)
      returns (after: World<S>, err: Option<Error>)
      modifies writer
      ensures writer == null ==> err == Some(NotStarted) && after == w
      ensures writer != null ==>
                var stage := BatchStage(hooks, span, w, msgs);
                && after == stage.world
                && BatchWrites(stage, span, writeFailure, old(writer.written), writer.written)
                && (stage.err.Some? ==> err == Some(HookFailed(stage.err.value)))
                && (stage.err.None? && writeFailure.Some? ==> err == Some(BatchWriteFailed(writeFailure.value.err)))
                && (err.None? <==> stage.err.None? && writeFailure.None?)
    {
      if writer == null { return w, Some(NotStarted); }
      var messages: seq<Prepared> := [];
      after := w;
      for i := 0 to |msgs|
        invariant var stage := BatchStage(hooks, span, w, msgs[..i]);
                  stage.err.None? && after == stage.world && PreparesAll(messages, stage.drafts, span)
        invariant writer.written == old(writer.written)
      {
        assert msgs[..i+1][..i] == msgs[..i];
        var r := RunPipeline(span, after, msgs[i]);
        after := r.world;
        if r.err.Some? {
          StageStops(hooks, span, w, msgs, i + 1);
          return after, Some(HookFailed(r.err.value));
        }
        var p := Prepare(r.world, r.msg, span);
        messages := messages + [p];
      }
      assert msgs[..|msgs|] == msgs;
      PreparedCarryAll(after, messages, BatchStage(hooks, span, w, msgs).drafts, span);
      writer.WriteMessages(after, messages, writeFailure);
      return after, if writeFailure.Some? then Some(BatchWriteFailed(writeFailure.value.err)) else None;
    }
  }

  lemma EachOne<S>(hooks: seq<Hook<S>>, ctx: Context, w: World<S>, msg: Message)
    ensures var r := RunHooks(hooks, ctx, w, msg);
            PublishEach(hooks, [ctx], w, [msg]) == Each(r.world, [ResultOf(r)])
  {
    var msgs, ctxs := [msg], [ctx];
    assert msgs[..0] == [] && ctxs[..0] == [];
    assert PublishEach(hooks, ctxs[..0], w, msgs[..0]) == Each(w, []);
  }

  ghost predicate CarriesAll(wires: seq<Wire>, outs: seq<Out>, span: Option<Span>) {
    |wires| == |outs| && forall i :: 0 <= i < |wires| ==> Carries(wires[i], outs[i], span)
  }

  lemma PreparedCarries<S>(w: World<S>, p: Prepared, d: Draft, span: Option<Span>)
    requires Prepares(p, d, span)
    ensures Carries(WireAt(w, p), OutAt(w, d), span)
  {}

  lemma OnePrepared<S>(w: World<S>, p: Prepared, d: Draft, span: Option<Span>, failure: Option<WriteFailure>)
    requires Prepares(p, d, span)
    ensures Carries(WireAt(w, p), OutAt(w, d), span)
    ensures Accepted(WiresAt(w, [p]), failure) == if AcceptedAt(failure, 0) then [WireAt(w, p)] else []
  {
    PreparedCarries(w, p, d, span);
    OneAccepted(WireAt(w, p), failure);
    assert WiresAt(w, [p]) == [WireAt(w, p)];
  }

  lemma PreparedCarryAll<S>(w: World<S>, prepared: seq<Prepared>, drafts: seq<Draft>, span: Option<Span>)
    requires PreparesAll(prepared, drafts, span)
    ensures CarriesAll(WiresAt(w, prepared), OutsAt(w, drafts), span)
  {
    forall i | 0 <= i < |prepared| ensures Carries(WireAt(w, prepared[i]), OutAt(w, drafts[i]), span) {
      PreparedCarries(w, prepared[i], drafts[i], span);
    }
  }

  /** What a batch does to the messages written so far: nothing if a hook fails, otherwise it adds those the client
      accepts of the messages the hooks made. */
  ghost predicate BatchWrites<S>(stage: Stage<S>, span: Option<Span>, failure: Option<WriteFailure>,
                                 before: seq<Wire>, after: seq<Wire>) {
    if stage.err.Some? then after == before
    else exists wires: seq<Wire> ::
           CarriesAll(wires, OutsOf(stage), span) && after == before + Accepted(wires, failure)
  }

  // ---------------------------------------------------------------- what is published, message by message

  /** What message `m` comes to: its bytes as they are in world `v`, its headers as they were in world `u`. */
  ghost predicate IsOut<S>(out: Out, v: World<S>, u: World<S>, m: Message) {
    && out.topic == m.topic && IsBytes(v, m.key, out.key) && IsBytes(v, m.value, out.value)
    && (m.headers in u.maps ==> out.user == u.maps[m.headers]) && (m.headers !in u.maps ==> out.user == map[])
  }

  /** The first messages of a batch were hooked one after the other, each in the world the one before it left. */
  ghost predicate HookedInTurn<S>(hooks: seq<Hook<S>>, ctx: Context, msgs: seq<Message>, worlds: seq<World<S>>,
                                  hooked: seq<Message>) {
    && |hooked| == |worlds| - 1 <= |msgs|
    && forall i :: 0 <= i < |hooked| ==>
         RunHooks(hooks, ctx, worlds[i], msgs[i]) == HookResult(worlds[i+1], hooked[i], None)
  }

  /** The batch ends as this message's hooks did. */
  ghost predicate EndsWith<S>(b: Stage<S>, r: HookResult<S>) { r.err == b.err && r.world == b.world }

  ghost predicate AreDrafts<S>(drafts: seq<Draft>, worlds: seq<World<S>>, hooked: seq<Message>) {
    && |drafts| == |hooked| == |worlds| - 1
    && forall i :: 0 <= i < |drafts| ==> drafts[i] == DraftOf(HookResult(worlds[i+1], hooked[i], None))
  }

  lemma OneMoreHooked<S>(hooks: seq<Hook<S>>, ctx: Context, msgs: seq<Message>, worlds: seq<World<S>>,
                         hooked: seq<Message>, drafts: seq<Draft>, r: HookResult<S>)
    requires HookedInTurn(hooks, ctx, msgs, worlds, hooked) && AreDrafts(drafts, worlds, hooked)
    requires |hooked| < |msgs| && r.err.None? && r == RunHooks(hooks, ctx, worlds[|hooked|], msgs[|hooked|])
    ensures HookedInTurn(hooks, ctx, msgs, worlds + [r.world], hooked + [r.msg])
    ensures AreDrafts(drafts + [DraftOf(r)], worlds + [r.world], hooked + [r.msg])
  {
    var v, m, d := worlds + [r.world], hooked + [r.msg], drafts + [DraftOf(r)];
    assert forall i :: 0 <= i < |worlds| ==> v[i] == worlds[i];
    assert v[|worlds|] == r.world && m[|hooked|] == r.msg && d[|drafts|] == DraftOf(r);
  }

  lemma {:induction false} BatchInTurn<S>(hooks: seq<Hook<S>>, ctx: Context, w: World<S>, msgs: seq<Message>)
    returns (worlds: seq<World<S>>, hooked: seq<Message>)
    ensures HookedInTurn(hooks, ctx, msgs, worlds, hooked) && worlds[0] == w
    ensures var b := BatchStage(hooks, ctx, w, msgs);
            && AreDrafts(b.drafts, worlds, hooked)
            && (b.err.None? ==> |hooked| == |msgs| && b.world == worlds[|msgs|])
            && (b.err.Some? ==>
                  |hooked| < |msgs|
                  && EndsWith(b, RunHooks(hooks, ctx, worlds[|hooked|], msgs[|hooked|])))
  {
    if msgs == [] {
      worlds, hooked := [w], [];
    } else {
      var n := |msgs| - 1;
      worlds, hooked := BatchInTurn(hooks, ctx, w, msgs[..n]);
      var before := BatchStage(hooks, ctx, w, msgs[..n]);
      assert HookedInTurn(hooks, ctx, msgs, worlds, hooked);
      if before.err.None? {
        var r := RunHooks(hooks, ctx, before.world, msgs[n]);
        if r.err.None? {
          OneMoreHooked(hooks, ctx, msgs, worlds, hooked, before.drafts, r);
          worlds, hooked := worlds + [r.world], hooked + [r.msg];
        }
      }
    }
  }

  /** The batch hooks message after message, each in the world the one before it left; a message is written with the
      headers it had right after its hooks and the bytes it has when the last message has been hooked. A hook that
      fails ends the batch. */
  lemma BatchExact<S>(hooks: seq<Hook<S>>, ctx: Context, w: World<S>, msgs: seq<Message>)
    returns (worlds: seq<World<S>>, hooked: seq<Message>)
    ensures HookedInTurn(hooks, ctx, msgs, worlds, hooked) && worlds[0] == w
    ensures var b := BatchStage(hooks, ctx, w, msgs);
            && (b.err.None? ==> |hooked| == |msgs| && b.world == worlds[|msgs|])
            && (b.err.Some? ==>
                  |hooked| < |msgs|
                  && EndsWith(b, RunHooks(hooks, ctx, worlds[|hooked|], msgs[|hooked|])))
    ensures var b := BatchStage(hooks, ctx, w, msgs);
            |OutsOf(b)| == |hooked| && forall i :: 0 <= i < |hooked| ==>
              IsOut(OutsOf(b)[i], b.world, worlds[i+1], hooked[i])
  {
    worlds, hooked := BatchInTurn(hooks, ctx, w, msgs);
    DraftsAreOuts(BatchStage(hooks, ctx, w, msgs).world, BatchStage(hooks, ctx, w, msgs).drafts, worlds, hooked);
  }

  lemma DraftsAreOuts<S>(v: World<S>, drafts: seq<Draft>, worlds: seq<World<S>>, hooked: seq<Message>)
    requires AreDrafts(drafts, worlds, hooked)
    ensures forall i :: 0 <= i < |drafts| ==> IsOut(OutsAt(v, drafts)[i], v, worlds[i+1], hooked[i])
  {
    forall i | 0 <= i < |drafts| ensures IsOut(OutAt(v, drafts[i]), v, worlds[i+1], hooked[i]) {}
  }

  /** What becomes of one message that is published singly. */
  ghost predicate PublishedAs<S>(result: Published, r: HookResult<S>) {
    if r.err.Some? then result == HookError(r.err.value)
    else result.Wrote? && IsOut(result.out, r.world, r.world, r.msg)
  }

  ghost predicate PublishedInTurn<S>(hooks: seq<Hook<S>>, ctxs: seq<Context>, msgs: seq<Message>,
                                     worlds: seq<World<S>>, results: seq<Published>) {
    && |results| == |worlds| - 1 <= |msgs| && |results| <= |ctxs|
    && forall i :: 0 <= i < |results| ==>
         && worlds[i+1] == RunHooks(hooks, ctxs[i], worlds[i], msgs[i]).world
         && PublishedAs(results[i], RunHooks(hooks, ctxs[i], worlds[i], msgs[i]))
  }

  lemma OneMorePublished<S>(hooks: seq<Hook<S>>, ctxs: seq<Context>, msgs: seq<Message>, worlds: seq<World<S>>,
                            results: seq<Published>, r: HookResult<S>)
    requires PublishedInTurn(hooks, ctxs, msgs, worlds, results) && |results| < |msgs| && |results| < |ctxs|
    requires r == RunHooks(hooks, ctxs[|results|], worlds[|results|], msgs[|results|])
    ensures PublishedInTurn(hooks, ctxs, msgs, worlds + [r.world], results + [ResultOf(r)])
  {
    var v, p := worlds + [r.world], results + [ResultOf(r)];
    assert forall i :: 0 <= i < |worlds| ==> v[i] == worlds[i];
    assert v[|worlds|] == r.world && p[|results|] == ResultOf(r) && PublishedAs(ResultOf(r), r);
  }

  /** Single publishes hook message after message likewise, whatever becomes of those before, and write each as it is
      right after its own hooks. */
  lemma {:induction false} EachExact<S>(hooks: seq<Hook<S>>, ctxs: seq<Context>, w: World<S>, msgs: seq<Message>)
    returns (worlds: seq<World<S>>)
    requires |ctxs| == |msgs|
    ensures var e := PublishEach(hooks, ctxs, w, msgs);
            && PublishedInTurn(hooks, ctxs, msgs, worlds, e.results) && |e.results| == |msgs|
            && worlds[0] == w && worlds[|msgs|] == e.world
  {
    if msgs == [] {
      worlds := [w];
    } else {
      var n := |msgs| - 1;
      var before := PublishEach(hooks, ctxs[..n], w, msgs[..n]);
      worlds := EachExact(hooks, ctxs[..n], w, msgs[..n]);
      assert PublishedInTurn(hooks, ctxs, msgs, worlds, before.results);
      var r := RunHooks(hooks, ctxs[n], before.world, msgs[n]);
      OneMorePublished(hooks, ctxs, msgs, worlds, before.results, r);
      worlds := worlds + [r.world];
    }
  }

  // ---------------------------------------------------------------- whole batches

  lemma {:induction false} StageLength<S>(hooks: seq<Hook<S>>, ctx: Context, w: World<S>, msgs: seq<Message>)
    requires BatchStage(hooks, ctx, w, msgs).err.None?
    ensures |BatchStage(hooks, ctx, w, msgs).drafts| == |msgs|
  {
    if msgs != [] { StageLength(hooks, ctx, w, msgs[..|msgs|-1]); }
  }

  lemma CarrierExists(out: Out, span: Option<Span>) returns (wire: Wire)
    ensures Carries(wire, out, span)
  {
    var hs := Listable(out.user);
    EndToEnd(out.user, hs, span);
    wire := Wire(out.topic, out.key, out.value, SetAll(hs, TraceHeaders(span)));
  }

  lemma {:induction false} CarriersExist(outs: seq<Out>, span: Option<Span>) returns (wires: seq<Wire>)
    ensures CarriesAll(wires, outs, span)
  {
    wires := [];
    if outs != [] {
      wires := CarriersExist(outs[..|outs|-1], span);
      var wire := CarrierExists(outs[|outs|-1], span);
      wires := wires + [wire];
    }
  }

  /** Whatever the client does, the batch is written wholly or not at all. */
  ghost predicate Atomic<S(!new)>(hooks: seq<Hook<S>>, span: Option<Span>, w: World<S>, msgs: seq<Message>) {
    forall failure: Option<WriteFailure>, before: seq<Wire>, after: seq<Wire> ::
      BatchWrites(BatchStage(hooks, span, w, msgs), span, failure, before, after) ==>
        after == before || |after| == |before| + |msgs|
  }

  /** A batch is written wholly or not at all, whatever the client does, exactly when one of its hooks fails or it
      has at most one message. */
  lemma AtomicIff<S(!new)>(hooks: seq<Hook<S>>, span: Option<Span>, w: World<S>, msgs: seq<Message>)
    ensures Atomic(hooks, span, w, msgs) <==> BatchStage(hooks, span, w, msgs).err.Some? || |msgs| <= 1
  {
    var stage := BatchStage(hooks, span, w, msgs);
    if stage.err.None? {
      StageLength(hooks, span, w, msgs);
      if |msgs| <= 1 {
        forall failure: Option<WriteFailure>, before: seq<Wire>, after: seq<Wire>
          | BatchWrites(stage, span, failure, before, after)
          ensures after == before || |after| == |before| + |msgs|
        {
          var wires: seq<Wire> :| CarriesAll(wires, OutsOf(stage), span) && after == before + Accepted(wires, failure);
          AcceptedLength(wires, failure);
        }
      } else {
        var wires := CarriersExist(OutsOf(stage), span);
        var failure := FirstOnly(wires);
        assert BatchWrites(stage, span, failure, [], [] + Accepted(wires, failure));
      }
    }
  }

  /** A client that accepts the first message and no other splits any longer batch. */
  lemma FirstOnly(wires: seq<Wire>) returns (failure: Option<WriteFailure>)
    requires |wires| > 1
    ensures 0 < |Accepted(wires, failure)| < |wires|
  {
    failure := Some(WriteFailure("", i => i == 0));
    AcceptedLength(wires, failure);
    assert AcceptedAt(failure, 0) && !AcceptedAt(failure, 1);
  }

  // ---------------------------------------------------------------- batch against repeated singles

  predicate AllWrote(results: seq<Published>) {
    forall i :: 0 <= i < |results| ==> results[i].Wrote?
  }

  /** The hooks together make the same of a message whatever span their context holds. */
  ghost predicate IgnoresContext<S(!new)>(hooks: seq<Hook<S>>) {
    forall c: Context, d: Context, w: World<S>, msg: Message :: SamePass(hooks, c, d, w, msg)
  }

  ghost predicate SamePass<S>(hooks: seq<Hook<S>>, c: Context, d: Context, w: World<S>, msg: Message) {
    var r, q := RunHooks(hooks, c, w, msg), RunHooks(hooks, d, w, msg);
    r.world == q.world && ResultOf(r) == ResultOf(q)
  }

  /** Hooking one message more, without failing, leaves what the earlier messages of the batch come to. */
  ghost predicate KeepsEarlier<S(!new)>(hooks: seq<Hook<S>>) {
    forall ctx: Context, w: World<S>, msgs: seq<Message> :: EarlierKept(hooks, ctx, w, msgs)
  }

  ghost predicate EarlierKept<S>(hooks: seq<Hook<S>>, ctx: Context, w: World<S>, msgs: seq<Message>) {
    msgs == [] || BatchStage(hooks, ctx, w, msgs).err.Some?
    || OutsOf(BatchStage(hooks, ctx, w, msgs[..|msgs|-1])) <= OutsOf(BatchStage(hooks, ctx, w, msgs))
  }

  /** The single publishes of the drafted messages wrote the drafts, each with the bytes it had right after its own
      hooks. */
  ghost predicate WroteDrafts<S>(results: seq<Published>, drafts: seq<Draft>, hooks: seq<Hook<S>>, ctx: Context,
                                 w: World<S>, msgs: seq<Message>) {
    && |drafts| <= |results| <= |msgs|
    && forall i :: 0 <= i < |drafts| ==> results[i] == Wrote(OutAt(AfterFirst(hooks, ctx, w, msgs, i + 1), drafts[i]))
  }

  /** The world after the first `k` messages of a batch. */
  function AfterFirst<S>(hooks: seq<Hook<S>>, ctx: Context, w: World<S>, msgs: seq<Message>, k: nat): World<S> {
    BatchStage(hooks, ctx, w, PrefixOf(msgs, k)).world
  }

  lemma WroteDraftsMore<S>(results: seq<Published>, more: seq<Published>, drafts: seq<Draft>, hooks: seq<Hook<S>>,
                           ctx: Context, w: World<S>, msgs: seq<Message>)
    requires msgs != [] && WroteDrafts(results, drafts, hooks, ctx, w, msgs[..|msgs|-1])
    requires results <= more && |more| <= |msgs|
    ensures WroteDrafts(more, drafts, hooks, ctx, w, msgs)
  {
    var init := msgs[..|msgs|-1];
    forall i | 0 <= i < |drafts| ensures more[i] == Wrote(OutAt(AfterFirst(hooks, ctx, w, msgs, i + 1), drafts[i])) {
      assert PrefixOf(init, i + 1) == PrefixOf(msgs, i + 1);
      assert more[i] == results[i];
    }
  }

  lemma WroteLastDraft<S>(results: seq<Published>, drafts: seq<Draft>, d: Draft, hooks: seq<Hook<S>>,
                          ctx: Context, w: World<S>, msgs: seq<Message>)
    requires |results| == |drafts| == |msgs| - 1 && WroteDrafts(results, drafts, hooks, ctx, w, msgs[..|msgs|-1])
    ensures var more := results + [Wrote(OutAt(BatchStage(hooks, ctx, w, msgs).world, d))];
            WroteDrafts(more, drafts + [d], hooks, ctx, w, msgs)
  {
    var more := results + [Wrote(OutAt(BatchStage(hooks, ctx, w, msgs).world, d))];
    WroteDraftsMore(results, more, drafts, hooks, ctx, w, msgs);
    assert PrefixOf(msgs, |msgs|) == msgs;
    assert forall i :: 0 <= i < |drafts| ==> (drafts + [d])[i] == drafts[i];
  }

  /** If no hook fails in the batch, none fails in the single publishes, which then hook the same messages
      in the same worlds and write each as it is then. */
  lemma {:induction false} BatchPasses<S(!new)>(hooks: seq<Hook<S>>, ctx: Context, ctxs: seq<Context>, w: World<S>,
                                                msgs: seq<Message>)
    requires IgnoresContext(hooks) && |ctxs| == |msgs| && BatchStage(hooks, ctx, w, msgs).err.None?
    ensures var b, e := BatchStage(hooks, ctx, w, msgs), PublishEach(hooks, ctxs, w, msgs);
            && b.world == e.world && |b.drafts| == |e.results| == |msgs| && AllWrote(e.results)
            && WroteDrafts(e.results, b.drafts, hooks, ctx, w, msgs)
  {
    if msgs != [] {
      var n := |msgs| - 1;
      BatchPasses(hooks, ctx, ctxs[..n], w, msgs[..n]);
      var before := BatchStage(hooks, ctx, w, msgs[..n]);
      assert SamePass(hooks, ctx, ctxs[n], before.world, msgs[n]);
      WroteLastDraft(PublishEach(hooks, ctxs[..n], w, msgs[..n]).results, before.drafts,
                     DraftOf(RunHooks(hooks, ctx, before.world, msgs[n])), hooks, ctx, w, msgs);
    }
  }

  /** If the hooks leave earlier messages alone, the single publishes then also write what the batch writes. */
  lemma {:induction false} BatchAsSingles<S(!new)>(hooks: seq<Hook<S>>, ctx: Context, ctxs: seq<Context>, w: World<S>,
                                                   msgs: seq<Message>)
    requires IgnoresContext(hooks) && KeepsEarlier(hooks)
    requires |ctxs| == |msgs| && BatchStage(hooks, ctx, w, msgs).err.None?
    ensures var b, e := BatchStage(hooks, ctx, w, msgs), PublishEach(hooks, ctxs, w, msgs);
            && b.world == e.world && |OutsOf(b)| == |e.results| == |msgs|
            && forall i :: 0 <= i < |msgs| ==> e.results[i] == Wrote(OutsOf(b)[i])
  {
    BatchPasses(hooks, ctx, ctxs, w, msgs);
    if msgs != [] {
      var n := |msgs| - 1;
      BatchAsSingles(hooks, ctx, ctxs[..n], w, msgs[..n]);
      assert EarlierKept(hooks, ctx, w, msgs);
      var before := BatchStage(hooks, ctx, w, msgs[..n]);
      assert SamePass(hooks, ctx, ctxs[n], before.world, msgs[n]);
      LastOut(hooks, ctx, w, msgs);
    }
  }

  lemma LastOut<S>(hooks: seq<Hook<S>>, ctx: Context, w: World<S>, msgs: seq<Message>)
    requires msgs != [] && BatchStage(hooks, ctx, w, msgs).err.None?
    ensures var n := |msgs| - 1; var b, before := BatchStage(hooks, ctx, w, msgs), BatchStage(hooks, ctx, w, msgs[..n]);
            && before.err.None? && |OutsOf(b)| == |OutsOf(before)| + 1
            && OutsOf(b)[|OutsOf(before)|] == OutOf(RunHooks(hooks, ctx, before.world, msgs[n]))
  {}

  /** If a hook fails in the batch, the single publish of that message fails the same way, every message
      before it is written by its single as it was hooked, and the batch leaves the world those singles leave. */
  lemma {:induction false} BatchFailure<S(!new)>(hooks: seq<Hook<S>>, ctx: Context, ctxs: seq<Context>, w: World<S>,
                                                 msgs: seq<Message>)
    requires IgnoresContext(hooks) && |ctxs| == |msgs| && BatchStage(hooks, ctx, w, msgs).err.Some?
    ensures var b, e := BatchStage(hooks, ctx, w, msgs), PublishEach(hooks, ctxs, w, msgs);
            && |b.drafts| < |e.results| == |msgs| && e.results[|b.drafts|] == HookError(b.err.value)
            && WroteDrafts(e.results, b.drafts, hooks, ctx, w, msgs)
            && b.world == PublishEach(hooks, ctxs[..|b.drafts|+1], w, msgs[..|b.drafts|+1]).world
  {
    var n := |msgs| - 1;
    var before := BatchStage(hooks, ctx, w, msgs[..n]);
    if before.err.Some? {
      BatchFailure(hooks, ctx, ctxs[..n], w, msgs[..n]);
      FailureStays(hooks, ctx, ctxs, w, msgs);
      WroteDraftsMore(PublishEach(hooks, ctxs[..n], w, msgs[..n]).results, PublishEach(hooks, ctxs, w, msgs).results,
                      before.drafts, hooks, ctx, w, msgs);
    } else {
      FailsAtLast(hooks, ctx, ctxs, w, msgs);
    }
  }

  lemma FailsAtLast<S(!new)>(hooks: seq<Hook<S>>, ctx: Context, ctxs: seq<Context>, w: World<S>, msgs: seq<Message>)
    requires IgnoresContext(hooks) && |ctxs| == |msgs| > 0 && BatchStage(hooks, ctx, w, msgs).err.Some?
    requires BatchStage(hooks, ctx, w, msgs[..|msgs|-1]).err.None?
    ensures var b, e := BatchStage(hooks, ctx, w, msgs), PublishEach(hooks, ctxs, w, msgs); var n := |msgs| - 1;
            && |b.drafts| == n && |e.results| == n + 1 && e.results[n] == HookError(b.err.value)
            && WroteDrafts(e.results, b.drafts, hooks, ctx, w, msgs)
            && b.world == e.world && msgs[..n+1] == msgs && ctxs[..n+1] == ctxs
  {
    var n := |msgs| - 1;
    BatchPasses(hooks, ctx, ctxs[..n], w, msgs[..n]);
    assert SamePass(hooks, ctx, ctxs[n], BatchStage(hooks, ctx, w, msgs[..n]).world, msgs[n]);
    WroteDraftsMore(PublishEach(hooks, ctxs[..n], w, msgs[..n]).results, PublishEach(hooks, ctxs, w, msgs).results,
                    BatchStage(hooks, ctx, w, msgs).drafts, hooks, ctx, w, msgs);
  }

  /** Messages after the failing one change nothing for the batch. */
  lemma FailureStays<S>(hooks: seq<Hook<S>>, ctx: Context, ctxs: seq<Context>, w: World<S>, msgs: seq<Message>)
    requires |ctxs| == |msgs| > 0 && BatchStage(hooks, ctx, w, msgs[..|msgs|-1]).err.Some?
    ensures var n := |msgs| - 1;
            var b, e := BatchStage(hooks, ctx, w, msgs[..n]), PublishEach(hooks, ctxs[..n], w, msgs[..n]);
            && BatchStage(hooks, ctx, w, msgs) == b
            && e.results <= PublishEach(hooks, ctxs, w, msgs).results
            && |PublishEach(hooks, ctxs, w, msgs).results| == |e.results| + 1
            && (|b.drafts| < n ==> msgs[..n][..|b.drafts|+1] == msgs[..|b.drafts|+1])
            && (|b.drafts| < n ==> ctxs[..n][..|b.drafts|+1] == ctxs[..|b.drafts|+1])
  {}

  /** The batch gets past its hooks exactly when every single publish would. */
  lemma BatchPassesWhenSinglesDo<S(!new)>(hooks: seq<Hook<S>>, ctx: Context, ctxs: seq<Context>, w: World<S>,
                                          msgs: seq<Message>)
    requires IgnoresContext(hooks) && |ctxs| == |msgs|
    ensures BatchStage(hooks, ctx, w, msgs).err.None? <==> AllWrote(PublishEach(hooks, ctxs, w, msgs).results)
  {
    if BatchStage(hooks, ctx, w, msgs).err.None? {
      BatchPasses(hooks, ctx, ctxs, w, msgs);
    } else {
      BatchFailure(hooks, ctx, ctxs, w, msgs);
    }
  }

  /** Batch and single publishes agree: both get past the hooks, or neither does; if they do, they write the same
      and leave the same world. */
  ghost predicate StagesAgree<S>(hooks: seq<Hook<S>>, ctx: Context, ctxs: seq<Context>, w: World<S>, msgs: seq<Message>)
    requires |ctxs| == |msgs|
  {
    var b, e := BatchStage(hooks, ctx, w, msgs), PublishEach(hooks, ctxs, w, msgs);
    && (b.err.None? <==> AllWrote(e.results))
    && (b.err.None? ==> b.world == e.world && WroteAll(e.results, OutsOf(b)))
    && (b.err.Some? ==> |b.drafts| < |e.results| && e.results[|b.drafts|] == HookError(b.err.value))
    && (b.err.Some? ==>
      b.world == PublishEach(hooks, PrefixOf(ctxs, |b.drafts| + 1), w, PrefixOf(msgs, |b.drafts| + 1)).world)
  }

  predicate WroteAll(results: seq<Published>, outs: seq<Out>) {
    |results| == |outs| && forall i :: 0 <= i < |outs| ==> results[i] == Wrote(outs[i])
  }

  function PrefixOf<T>(s: seq<T>, n: nat): (t: seq<T>)
    ensures |t| == if n <= |s| then n else |s|
  {
    if n <= |s| then s[..n] else s
  }

  /** They agree for all messages, worlds and spans exactly when the hooks together ignore the span and leave earlier
      messages of a batch alone. */
  lemma StagesAgreeIff<S(!new)>(hooks: seq<Hook<S>>)
    ensures IgnoresContext(hooks) && KeepsEarlier(hooks) <==>
      forall ctx: Context, ctxs: seq<Context>, w: World<S>, msgs: seq<Message> :: |ctxs| == |msgs| ==>
        StagesAgree(hooks, ctx, ctxs, w, msgs)
  {
    if IgnoresContext(hooks) && KeepsEarlier(hooks) {
      forall ctx: Context, ctxs: seq<Context>, w: World<S>, msgs: seq<Message> | |ctxs| == |msgs|
        ensures StagesAgree(hooks, ctx, ctxs, w, msgs)
      {
        IgnoringAgrees(hooks, ctx, ctxs, w, msgs);
      }
    }
    if forall ctx: Context, ctxs: seq<Context>, w: World<S>, msgs: seq<Message> :: |ctxs| == |msgs| ==>
         StagesAgree(hooks, ctx, ctxs, w, msgs) {
      forall c: Context, d: Context, w: World<S>, msg: Message ensures SamePass(hooks, c, d, w, msg) {
        var ctxs, msgs := [d], [msg];
        assert StagesAgree(hooks, c, ctxs, w, msgs);
        OneMessageAgrees(hooks, c, d, w, msg);
      }
      forall ctx: Context, w: World<S>, msgs: seq<Message> ensures EarlierKept(hooks, ctx, w, msgs) {
        if msgs != [] {
          var n := |msgs| - 1;
          var ctxs := seq(n + 1, _ => ctx);
          assert StagesAgree(hooks, ctx, ctxs, w, msgs) && StagesAgree(hooks, ctx, ctxs[..n], w, msgs[..n]);
          AgreeingKeeps(hooks, ctx, ctxs, w, msgs);
        }
      }
    }
  }

  lemma IgnoringAgrees<S(!new)>(hooks: seq<Hook<S>>, ctx: Context, ctxs: seq<Context>, w: World<S>, msgs: seq<Message>)
    requires IgnoresContext(hooks) && KeepsEarlier(hooks) && |ctxs| == |msgs|
    ensures StagesAgree(hooks, ctx, ctxs, w, msgs)
  {
    BatchPassesWhenSinglesDo(hooks, ctx, ctxs, w, msgs);
    if BatchStage(hooks, ctx, w, msgs).err.None? {
      BatchAsSingles(hooks, ctx, ctxs, w, msgs);
    } else {
      BatchFailure(hooks, ctx, ctxs, w, msgs);
    }
  }

  lemma OneMessageAgrees<S>(hooks: seq<Hook<S>>, c: Context, d: Context, w: World<S>, msg: Message)
    requires StagesAgree(hooks, c, [d], w, [msg])
    ensures SamePass(hooks, c, d, w, msg)
  {
    var msgs := [msg];
    EachOne(hooks, d, w, msg);
    assert msgs[..0] == [];
    assert BatchStage(hooks, c, w, msgs[..0]) == Stage(w, [], None);
    var r, q := RunHooks(hooks, c, w, msg), RunHooks(hooks, d, w, msg);
    var b, e := BatchStage(hooks, c, w, msgs), PublishEach(hooks, [d], w, msgs);
    assert b == if r.err.Some? then Stage(r.world, [], r.err) else Stage(r.world, [] + [DraftOf(r)], None);
    assert e.results == [ResultOf(q)] && e.results[0] == ResultOf(q);
    assert PrefixOf([d], 1) == [d] && PrefixOf(msgs, 1) == msgs;
    assert r.err.None? ==> OutsOf(b)[0] == OutOf(r);
  }

  /** If a batch and the batch without its last message both agree with single publishes, hooking the last message
      left the others alone. */
  lemma AgreeingKeeps<S>(hooks: seq<Hook<S>>, ctx: Context, ctxs: seq<Context>, w: World<S>, msgs: seq<Message>)
    requires msgs != [] && |ctxs| == |msgs| && StagesAgree(hooks, ctx, ctxs, w, msgs)
    requires StagesAgree(hooks, ctx, ctxs[..|msgs|-1], w, msgs[..|msgs|-1])
    ensures EarlierKept(hooks, ctx, w, msgs)
  {
    if BatchStage(hooks, ctx, w, msgs).err.None? { LastOut(hooks, ctx, w, msgs); }
  }

  /** Some hook ignores the span and does not leave earlier messages alone: it overwrites the payload it is given, and
      two messages of a batch share theirs. The first is then written with the bytes of the second. */
  lemma SharedPayloadOverwritten<S(!new)>(w: World<S>, msg: Message) returns (hooks: seq<Hook<S>>)
    ensures IgnoresContext(hooks) && !EarlierKept(hooks, None, w, [msg, msg])
  {
    hooks := [Overwrite];
    OneHook<S>(Overwrite);
    forall c: Context, d: Context, v: World<S>, m: Message ensures SamePass(hooks, c, d, v, m) {}
    var msgs := [msg, msg];
    assert msgs[..1] == [msg] && msgs[..1][..0] == [];
    assert BatchStage(hooks, None, w, msgs[..1][..0]) == Stage(w, [], None);
    var first, both := BatchStage(hooks, None, w, msgs[..1]), BatchStage(hooks, None, w, msgs);
    assert OutsOf(first)[0].value == BytesOf(first.world, msg.value);
    assert OutsOf(both)[0].value == Other(BytesOf(first.world, msg.value));
  }

  function Overwrite<S>(c: Context, w: World<S>, msg: Message): HookResult<S> {
    HookResult(w.(bytes := w.bytes[msg.value := Other(BytesOf(w, msg.value))]), msg, None)
  }

  function Other(s: string): string { if s == "a" then "b" else "a" }

  lemma OneHook<S>(hook: Hook<S>)
    ensures forall c: Context, w: World<S>, msg: Message :: RunHooks([hook], c, w, msg) == hook(c, w, msg)
  {
    var hooks := [hook];
    assert hooks[..0] == [];
    forall c: Context, w: World<S>, msg: Message ensures RunHooks(hooks, c, w, msg) == hook(c, w, msg) {
      assert RunHooks(hooks[..0], c, w, msg) == HookResult(w, msg, None);
    }
  }

  /** Everything in a written message but its trace headers. */
  function BesidesTrace(wire: Wire): (string, string, string, map<string, string>) {
    (wire.topic, wire.key, wire.value, LastMap(wire.headers) - {TRACEPARENT, TRACESTATE})
  }

  ghost predicate SameBesidesTrace(a: seq<Wire>, b: seq<Wire>) {
    |a| == |b| && forall i :: 0 <= i < |a| ==> BesidesTrace(a[i]) == BesidesTrace(b[i])
  }

  lemma CarriersAgree(a: Wire, b: Wire, out: Out, spanA: Option<Span>, spanB: Option<Span>)
    requires Carries(a, out, spanA) && Carries(b, out, spanB)
    ensures BesidesTrace(a) == BesidesTrace(b)
  {
    TraceKeys(spanA);
    TraceKeys(spanB);
    WithoutTrace(out.user, LastMap(TraceHeaders(spanA)));
    WithoutTrace(out.user, LastMap(TraceHeaders(spanB)));
  }

  lemma WithoutTrace(user: map<string, string>, trace: map<string, string>)
    requires trace.Keys <= {TRACEPARENT, TRACESTATE}
    ensures (user + trace) - {TRACEPARENT, TRACESTATE} == user - {TRACEPARENT, TRACESTATE}
  {}

  lemma TraceKeys(span: Option<Span>)
    ensures LastMap(TraceHeaders(span)).Keys <= {TRACEPARENT, TRACESTATE}
  {
    if span.Some? { TraceHeadersMap(span.value); }
  }

  /** If no hook fails, overwrites an earlier message or minds the span, a written batch is,
    in order and up to trace headers, what single publishes with any
      spans of their own write, and both leave the hooks and all header maps in the same state. */
  lemma BatchRefinesSingles<S(!new)>(hooks: seq<Hook<S>>, w: World<S>, msgs: seq<Message>,
                                     batch: seq<Wire>, batchSpan: Option<Span>,
                                     singles: seq<Wire>, spans: seq<Option<Span>>)
    requires IgnoresContext(hooks) && KeepsEarlier(hooks) && |singles| == |spans| == |msgs|
    requires var b := BatchStage(hooks, batchSpan, w, msgs); b.err.None? && CarriesAll(batch, OutsOf(b), batchSpan)
    requires var results := PublishEach(hooks, spans, w, msgs).results;
             |results| == |msgs| && forall i :: 0 <= i < |results| ==>
               results[i].Wrote? ==> Carries(singles[i], results[i].out, spans[i])
    ensures SameBesidesTrace(batch, singles)
    ensures BatchStage(hooks, batchSpan, w, msgs).world == PublishEach(hooks, spans, w, msgs).world
  {
    BatchAsSingles(hooks, batchSpan, spans, w, msgs);
    var outs := OutsOf(BatchStage(hooks, batchSpan, w, msgs));
    forall i | 0 <= i < |batch| ensures BesidesTrace(batch[i]) == BesidesTrace(singles[i]) {
      CarriersAgree(batch[i], singles[i], outs[i], batchSpan, spans[i]);
    }
  }

  // ---------------------------------------------------------------- the two methods side by side

  /** The wires that were written, in order. */
  function Written(wires: seq<Option<Wire>>): seq<Wire> {
    if wires == [] then []
    else Written(wires[..|wires|-1]) + (match wires[|wires|-1] case Some(wire) => [wire] case None => [])
  }

  /** What one Publish after another gives for one message. */
  ghost predicate SinglyPublished(result: Published, span: Option<Span>, failure: Option<WriteFailure>,
                                  err: Option<Error>, wire: Option<Wire>) {
    && (err.None? <==> result.Wrote? && failure.None?)
    && (wire.Some? <==> result.Wrote? && AcceptedAt(failure, 0))
    && (wire.Some? && result.Wrote? ==> Carries(wire.value, result.out, span))
    && (result.HookError? ==> err == Some(HookFailed(result.err)))
    && (result.Wrote? && failure.Some? ==> err == Some(WriteFailed(result.out.topic, failure.value.err)))
  }

  ghost predicate AllSingly(results: seq<Published>, spans: seq<Option<Span>>, failures: seq<Option<WriteFailure>>,
                            errs: seq<Option<Error>>, wires: seq<Option<Wire>>) {
    && |errs| == |wires| == |results| <= |spans| == |failures|
    && forall i :: 0 <= i < |results| ==> SinglyPublished(results[i], spans[i], failures[i], errs[i], wires[i])
  }

  /** A caller that publishes the messages one by one, whatever becomes of each. */
  method PublishSingly<S>(p: Producer<S>, w: World<S>, msgs: seq<Message>, spans: seq<Option<Span>>,
                          failures: seq<Option<WriteFailure>>)
    returns (after: World<S>, errs: seq<Option<Error>>, ghost wires: seq<Option<Wire>>)
    requires p.writer != null && |spans| == |failures| == |msgs|
    modifies p.writer
    ensures |errs| == |msgs| && after == PublishEach(p.hooks, spans, w, msgs).world
    ensures AllSingly(PublishEach(p.hooks, spans, w, msgs).results, spans, failures, errs, wires)
    ensures p.writer.written == old(p.writer.written) + Written(wires)
  {
    after, errs, wires := w, [], [];
    ghost var results: seq<Published> := [];
    for n := 0 to |msgs|
      invariant PublishEach(p.hooks, spans[..n], w, msgs[..n]) == Each(after, results) && |results| == n
      invariant AllSingly(results, spans, failures, errs, wires)
      invariant p.writer.written == old(p.writer.written) + Written(wires)
    {
      ghost var before, one := p.writer.written, PublishEach(p.hooks, [spans[n]], after, [msgs[n]]);
      EachMore(p.hooks, spans, w, msgs, n);
      var err;
      after, err := p.Publish(after, msgs[n], spans[n], failures[n]);
      ghost var wire: Option<Wire> := None;
      if one.results[0].Wrote? {
        ghost var x :| Carries(x, one.results[0].out, spans[n])
          && p.writer.written == before + (if AcceptedAt(failures[n], 0) then [x] else []);
        wire := if AcceptedAt(failures[n], 0) then Some(x) else None;
      }
      AllSinglyMore(results, spans, failures, errs, wires, one.results[0], err, wire);
      WrittenMore(wires, wire, old(p.writer.written));
      results, errs, wires := results + [one.results[0]], errs + [err], wires + [wire];
    }
    assert msgs[..|msgs|] == msgs && spans[..|msgs|] == spans;
  }

  lemma AllSinglyMore(results: seq<Published>, spans: seq<Option<Span>>, failures: seq<Option<WriteFailure>>,
                      errs: seq<Option<Error>>, wires: seq<Option<Wire>>,
                      result: Published, err: Option<Error>, wire: Option<Wire>)
    requires AllSingly(results, spans, failures, errs, wires) && |results| < |spans|
    requires SinglyPublished(result, spans[|results|], failures[|results|], err, wire)
    ensures AllSingly(results + [result], spans, failures, errs + [err], wires + [wire])
  {}

  /** Publishing one message more, as the next call of Publish does it. */
  lemma EachMore<S>(hooks: seq<Hook<S>>, ctxs: seq<Context>, w: World<S>, msgs: seq<Message>, n: nat)
    requires n < |msgs| == |ctxs|
    ensures var before := PublishEach(hooks, ctxs[..n], w, msgs[..n]);
            var one := PublishEach(hooks, [ctxs[n]], before.world, [msgs[n]]);
            && |one.results| == 1
            && PublishEach(hooks, ctxs[..n+1], w, msgs[..n+1]) == Each(one.world, before.results + [one.results[0]])
  {
    EachOne(hooks, ctxs[n], PublishEach(hooks, ctxs[..n], w, msgs[..n]).world, msgs[n]);
    assert msgs[..n+1][..n] == msgs[..n] && ctxs[..n+1][..n] == ctxs[..n];
  }

  lemma WrittenMore(wires: seq<Option<Wire>>, wire: Option<Wire>, before: seq<Wire>)
    ensures var more := if wire.Some? then [wire.value] else [];
            before + Written(wires + [wire]) == (before + Written(wires)) + more
    ensures (before + Written(wires)) + [] == before + Written(wires)
  {
    assert (wires + [wire])[..|wires|] == wires;
  }

  lemma {:induction false} AllWritten(wires: seq<Option<Wire>>)
    requires forall i :: 0 <= i < |wires| ==> wires[i].Some?
    ensures |Written(wires)| == |wires| && forall i :: 0 <= i < |wires| ==> Written(wires)[i] == wires[i].value
  {
    if wires != [] { AllWritten(wires[..|wires|-1]); }
  }

  /** With no write failing, every single publish returns nil exactly when every message was written, and then
      each message carries what its hooks made of it. */
  lemma SinglesPassed(results: seq<Published>, spans: seq<Option<Span>>, failures: seq<Option<WriteFailure>>,
                      errs: seq<Option<Error>>, wires: seq<Option<Wire>>)
    requires AllSingly(results, spans, failures, errs, wires)
    requires forall i :: 0 <= i < |failures| ==> failures[i].None?
    ensures AllWrote(results) <==> forall i :: 0 <= i < |errs| ==> errs[i].None?
    ensures AllWrote(results) ==> |Written(wires)| == |results|
    ensures AllWrote(results) ==> forall i :: 0 <= i < |results| ==>
      Carries(Written(wires)[i], results[i].out, spans[i])
  {
    assert forall i :: 0 <= i < |results| ==> SinglyPublished(results[i], spans[i], failures[i], errs[i], wires[i]);
    if AllWrote(results) { AllWritten(wires); }
  }

  /** Two producers with the same hooks, which ignore the span and leave earlier messages alone,
    one given the batch and one the single messages,
      no write failing. The batch succeeds exactly when every single publish does, and then both have written the
      same messages, in order and up to trace headers, and left the same world; otherwise the batch has written
      nothing. */
  method BatchAndSingles<S(!new)>(a: Producer<S>, b: Producer<S>, w: World<S>, msgs: seq<Message>,
                                  batchSpan: Option<Span>, spans: seq<Option<Span>>)
    returns (err: Option<Error>, errs: seq<Option<Error>>, afterBatch: World<S>, afterSingles: World<S>,
             ghost batch: seq<Wire>, ghost singles: seq<Wire>)
    requires a.writer != null && b.writer != null && a.writer != b.writer && a.hooks == b.hooks && |spans| == |msgs|
    requires IgnoresContext(a.hooks) && KeepsEarlier(a.hooks)
    modifies a.writer, b.writer
    ensures |errs| == |msgs| && (err.None? <==> forall i :: 0 <= i < |errs| ==> errs[i].None?)
    ensures a.writer.written == old(a.writer.written) + batch && b.writer.written == old(b.writer.written) + singles
    ensures err.None? ==> afterBatch == afterSingles && SameBesidesTrace(batch, singles) && |batch| == |msgs|
    ensures err.Some? ==> batch == []
  {
    ghost var before := a.writer.written;
    afterBatch, err := a.PublishBatch(w, msgs, batchSpan, None);
    batch := [];
    if err.None? {
      ghost var wires: seq<Wire> :| CarriesAll(wires, OutsOf(BatchStage(a.hooks, batchSpan, w, msgs)), batchSpan)
        && a.writer.written == before + Accepted(wires, None);
      AllAccepted(wires);
      batch := wires;
    }
    ghost var wires;
    var none: seq<Option<WriteFailure>> := seq(|msgs|, _ => None);
    afterSingles, errs, wires := PublishSingly(b, w, msgs, spans, none);
    singles := Written(wires);
    SidesAgree(a.hooks, w, msgs, batch, batchSpan, spans, none, errs, wires);
  }

  lemma SidesAgree<S(!new)>(hooks: seq<Hook<S>>, w: World<S>, msgs: seq<Message>, batch: seq<Wire>,
                            batchSpan: Option<Span>, spans: seq<Option<Span>>, none: seq<Option<WriteFailure>>,
                            errs: seq<Option<Error>>, wires: seq<Option<Wire>>)
    requires IgnoresContext(hooks) && KeepsEarlier(hooks)
    requires |spans| == |errs| == |msgs| && forall i :: 0 <= i < |none| ==> none[i].None?
    requires AllSingly(PublishEach(hooks, spans, w, msgs).results, spans, none, errs, wires)
    requires var b := BatchStage(hooks, batchSpan, w, msgs); b.err.None? ==> CarriesAll(batch, OutsOf(b), batchSpan)
    ensures BatchStage(hooks, batchSpan, w, msgs).err.None? <==> forall i :: 0 <= i < |errs| ==> errs[i].None?
    ensures BatchStage(hooks, batchSpan, w, msgs).err.None? ==>
      && BatchStage(hooks, batchSpan, w, msgs).world == PublishEach(hooks, spans, w, msgs).world
      && SameBesidesTrace(batch, Written(wires)) && |batch| == |msgs|
  {
    BatchPassesWhenSinglesDo(hooks, batchSpan, spans, w, msgs);
    SinglesPassed(PublishEach(hooks, spans, w, msgs).results, spans, none, errs, wires);
    if BatchStage(hooks, batchSpan, w, msgs).err.None? {
      BatchRefinesSingles(hooks, w, msgs, batch, batchSpan, Written(wires), spans);
    }
  }
}
