/** The idempotency middleware of pkg/server: any number of concurrent requests, each a sequence of
    atomic calls on a store whose entries may expire at any time. */
module Idempotency {
  import opened Common

  type Key = string
  type RequestId = nat

  // ---------------------------------------------------------------- responses

  /** What a handler writes into the recorder; no status means it never called WriteHeader. */
  datatype Raw = Raw(status: Option<int>, headers: map<string, seq<string>>, body: string)

  /** The captured response, as sent to the caller and as stored. */
  datatype Response = Response(status: int, headers: map<string, string>, body: string)

  /** Header names are compared in canonical form: upper case at the start and after a hyphen,
      lower case elsewhere; a name with a character that is not allowed in one is left alone. */
  function Canonical(name: string): string {
    if forall i :: 0 <= i < |name| ==> TokenChar(name[i]) then CanonicalFrom(name, true) else name
  }

  function CanonicalFrom(name: string, upper: bool): string {
    if name == [] then []
    else [if upper then UpperLetter(name[0]) else LowerLetter(name[0])] + CanonicalFrom(name[1..], name[0] == '-')
  }

  predicate TokenChar(c: char) {
    'a' <= c <= 'z' || 'A' <= c <= 'Z' || '0' <= c <= '9' || c in "!#$%&'*+-.^_`|~"
  }

  /** Header.Get: the first value under the canonical name, or the empty string. */
  function First(headers: map<string, seq<string>>, name: string): string {
    FirstAt(headers, Canonical(name))
  }

  function FirstAt(headers: map<string, seq<string>>, canonical: string): string {
    if canonical in headers && headers[canonical] != [] then headers[canonical][0] else ""
  }

  function Collapsed(headers: map<string, seq<string>>): map<string, string> {
    map k | k in headers :: First(headers, k)
  }

  function Capture(raw: Raw): Response {
    Response(if raw.status.Some? then raw.status.value else 200, Collapsed(raw.headers), raw.body)
  }

  /** What is captured: status 200 unless one was set, the body, and of each header the first value under its
      canonical name. */
  ghost predicate Captures(raw: Raw, r: Response) {
    && (raw.status.Some? ==> r.status == raw.status.value) && (raw.status.None? ==> r.status == 200)
    && r.body == raw.body && r.headers.Keys == raw.headers.Keys
    && forall n :: n in raw.headers ==>
         var c := Canonical(n);
         && (c in raw.headers && raw.headers[c] != [] ==> r.headers[n] == raw.headers[c][0])
         && (c !in raw.headers || raw.headers[c] == [] ==> r.headers[n] == "")
  }

  lemma CaptureCaptures(raw: Raw)
    ensures Captures(raw, Capture(raw))
  {}

  /** `c` is the canonical form of a captured name. */
  ghost predicate Names(headers: map<string, seq<string>>, c: string) { exists n :: n in headers && Canonical(n) == c }

  /** What is sent of captured headers: under each canonical name the first of its values, or an empty one, and
      otherwise what the writer has. */
  lemma SentHeadersExact(writer: map<string, seq<string>>, raw: Raw, written: map<string, seq<string>>, c: string)
    requires WrittenFrom(writer, Capture(raw).headers, written)
    ensures Names(raw.headers, c) ==>
      c in written && written[c] == [if c in raw.headers && raw.headers[c] != [] then raw.headers[c][0] else ""]
    ensures !Names(raw.headers, c) ==> (c in written <==> c in writer) && (c in writer ==> written[c] == writer[c])
  {
    var order: seq<string> :|
      Lists(order, Capture(raw).headers) && written == Written(writer, Capture(raw).headers, order);
    CapturedOrder(writer, raw, order);
    NamesListed(raw, order, c);
  }

  lemma NamesListed(raw: Raw, order: seq<string>, c: string)
    requires Lists(order, Capture(raw).headers)
    ensures c in CanonicalNames(order) <==> Names(raw.headers, c)
  {
    if c in CanonicalNames(order) {
      CanonicalNamesOnly(order, c);
      var i :| 0 <= i < |order| && Canonical(order[i]) == c;
      assert order[i] in Capture(raw).headers;
    }
    if n :| n in raw.headers && Canonical(n) == c {
      assert n in Capture(raw).headers;
      CanonicalNamesMember(order, n);
    }
  }

  lemma {:induction false} CanonicalNamesOnly(names: seq<string>, c: string)
    requires c in CanonicalNames(names)
    ensures exists i :: 0 <= i < |names| && Canonical(names[i]) == c
  {
    if Canonical(names[0]) != c {
      CanonicalNamesOnly(names[1..], c);
      var i :| 0 <= i < |names[1..]| && Canonical(names[1..][i]) == c;
      assert names[i+1] == names[1..][i];
    }
  }

  predicate IsToken(name: string) { forall i :: 0 <= i < |name| ==> TokenChar(name[i]) }

  predicate SameLetter(c: char, d: char) { LowerLetter(c) == LowerLetter(d) }

  predicate SameButCase(a: string, b: string) {
    |a| == |b| && forall i :: 0 <= i < |a| ==> SameLetter(a[i], b[i])
  }

  lemma LettersAgree(c: char, d: char, upper: bool)
    ensures (if upper then UpperLetter(c) == UpperLetter(d) else LowerLetter(c) == LowerLetter(d)) <==> SameLetter(c, d)
    ensures SameLetter(c, d) ==> (c == '-' <==> d == '-')
  {}

  lemma LetterStays(c: char, upper: bool)
    ensures var d := if upper then UpperLetter(c) else LowerLetter(c);
            && SameLetter(c, d) && (TokenChar(c) ==> TokenChar(d))
            && d == if upper then UpperLetter(d) else LowerLetter(d)
  {}

  lemma SameButCaseTail(a: string, b: string)
    requires a != [] && b != []
    ensures SameButCase(a, b) <==> SameLetter(a[0], b[0]) && SameButCase(a[1..], b[1..])
  {
    if SameLetter(a[0], b[0]) && SameButCase(a[1..], b[1..]) {
      forall i | 0 <= i < |a| ensures SameLetter(a[i], b[i]) {
        if i > 0 { assert SameLetter(a[1..][i-1], b[1..][i-1]); }
      }
    }
    if SameButCase(a, b) {
      forall i | 0 <= i < |a[1..]| ensures SameLetter(a[1..][i], b[1..][i]) { assert SameLetter(a[i+1], b[i+1]); }
    }
  }

  lemma {:induction false} CanonicalFromSame(a: string, b: string, upper: bool)
    ensures CanonicalFrom(a, upper) == CanonicalFrom(b, upper) <==> SameButCase(a, b)
  {
    if a != [] && b != [] {
      LettersAgree(a[0], b[0], upper);
      SameButCaseTail(a, b);
      FirstLetterApart(a, upper);
      FirstLetterApart(b, upper);
      if SameLetter(a[0], b[0]) {
        CanonicalFromSame(a[1..], b[1..], a[0] == '-');
        SamePieces(CanonicalFrom(a, upper), CanonicalFrom(b, upper));
      }
    }
  }

  lemma SamePieces(a: string, b: string)
    requires a != [] && b != []
    ensures a == b <==> a[0] == b[0] && a[1..] == b[1..]
  {
    assert a == [a[0]] + a[1..] && b == [b[0]] + b[1..];
  }

  lemma FirstLetterApart(a: string, upper: bool)
    requires a != []
    ensures CanonicalFrom(a, upper) != []
    ensures CanonicalFrom(a, upper)[0] == if upper then UpperLetter(a[0]) else LowerLetter(a[0])
    ensures CanonicalFrom(a, upper)[1..] == CanonicalFrom(a[1..], a[0] == '-')
  {}

  lemma {:induction false} CanonicalFromIsOwn(a: string, upper: bool)
    requires IsToken(a)
    ensures IsToken(CanonicalFrom(a, upper)) && CanonicalFrom(CanonicalFrom(a, upper), upper) == CanonicalFrom(a, upper)
  {
    if a != [] {
      LetterStays(a[0], upper);
      LettersAgree(a[0], CanonicalFrom(a, upper)[0], upper);
      FirstLetterApart(a, upper);
      CanonicalFromIsOwn(a[1..], a[0] == '-');
    }
  }

  /** Two token names have the same canonical form exactly when they differ in case only, and a canonical form is its
      own. */
  lemma CanonicalIgnoresCase(a: string, b: string)
    requires IsToken(a) && IsToken(b)
    ensures Canonical(a) == Canonical(b) <==> SameButCase(a, b)
    ensures Canonical(Canonical(a)) == Canonical(a)
  {
    CanonicalFromSame(a, b, true);
    CanonicalFromIsOwn(a, true);
  }

  /** The letter at the start and after each hyphen is upper case, every other lower case. */
  lemma {:induction false} CanonicalFromAt(name: string, upper: bool, i: nat)
    requires i < |name|
    ensures |CanonicalFrom(name, upper)| == |name|
    ensures CanonicalFrom(name, upper)[i]
      == if (if i == 0 then upper else name[i-1] == '-') then UpperLetter(name[i]) else LowerLetter(name[i])
  {
    if |name| > 1 { CanonicalFromAt(name[1..], name[0] == '-', if i > 0 then i - 1 else 0); }
  }

  /** The recorder refuses any other status by panicking. */
  predicate Writable(raw: Raw) {
    raw.status.Some? ==> 100 <= raw.status.value <= 999
  }

  /** `order` visits exactly the names of `headers`. */
  ghost predicate Lists<V>(order: seq<string>, headers: map<string, V>) {
    && (forall i :: 0 <= i < |order| ==> order[i] in headers)
    && (forall k :: k in headers ==> k in order)
  }

  /** Keeping one value per name; a map is visited in an arbitrary order. */
  method Collapse(headers: map<string, seq<string>>) returns (collapsed: map<string, string>)
    ensures collapsed == Collapsed(headers)
  {
    collapsed := map[];
    var rest := headers.Keys;
    while rest != {}
      invariant rest <= headers.Keys && collapsed.Keys == headers.Keys - rest
      invariant forall k :: k in collapsed ==> collapsed[k] == First(headers, k)
      decreases rest
    {
      var k :| k in rest;
      collapsed := collapsed[k := First(headers, k)];
      rest := rest - {k};
    }
  }

  /** Setting each header on the response writer, visiting the names in an arbitrary order. */
  method WriteHeaders(writer: map<string, seq<string>>, headers: map<string, string>)
    returns (written: map<string, seq<string>>)
    ensures WrittenFrom(writer, headers, written)
  {
    written := writer;
    ghost var order: seq<string> := [];
    var rest := headers.Keys;
    while rest != {}
      invariant rest <= headers.Keys
      invariant forall i :: 0 <= i < |order| ==> order[i] in headers
      invariant forall k :: k in headers && k !in rest ==> k in order
      invariant written == Written(writer, headers, order)
      decreases rest
    {
      var k :| k in rest;
      WrittenMore(writer, headers, order, k);
      written := written[Canonical(k) := [headers[k]]];
      order := order + [k];
      rest := rest - {k};
    }
    assert Lists(order, headers);
  }

  lemma {:induction false} WrittenMore(writer: map<string, seq<string>>, headers: map<string, string>,
                                       order: seq<string>, k: string)
    requires k in headers && forall i :: 0 <= i < |order| ==> order[i] in headers
    ensures Written(writer, headers, order + [k]) == Written(writer, headers, order)[Canonical(k) := [headers[k]]]
    decreases order
  {
    if order == [] {
      assert order + [k] == [k];
    } else {
      assert (order + [k])[1..] == order[1..] + [k];
      WrittenMore(writer[Canonical(order[0]) := [headers[order[0]]]], headers, order[1..], k);
    }
  }

  /** The writer's headers after setting `headers` in some order. */
  ghost predicate WrittenFrom(writer: map<string, seq<string>>, headers: map<string, string>,
                              written: map<string, seq<string>>) {
    exists order: seq<string> :: Lists(order, headers) && written == Written(writer, headers, order)
  }

  function Written(writer: map<string, seq<string>>, headers: map<string, string>,
                   order: seq<string>): map<string, seq<string>>
    requires forall i :: 0 <= i < |order| ==> order[i] in headers
    decreases order
  {
    if order == [] then writer
    else Written(writer[Canonical(order[0]) := [headers[order[0]]]], headers, order[1..])
  }

  /** The writer's headers, overridden by one value for each canonical name the handler used. */
  function Delivered(writer: map<string, seq<string>>, headers: map<string, seq<string>>,
                     names: seq<string>): map<string, seq<string>> {
    writer + FirstValues(headers, CanonicalNames(names))
  }

  function FirstValues(headers: map<string, seq<string>>, names: set<string>): map<string, seq<string>> {
    map c | c in names :: [FirstAt(headers, c)]
  }

  function CanonicalNames(names: seq<string>): set<string> {
    if names == [] then {} else {Canonical(names[0])} + CanonicalNames(names[1..])
  }

  lemma {:induction false} CanonicalNamesMember(names: seq<string>, k: string)
    requires k in names
    ensures Canonical(k) in CanonicalNames(names)
  {
    if k != names[0] { CanonicalNamesMember(names[1..], k); }
  }

  /** The original and a replay write the same captured headers, each in an order of its own, and leave the same
      headers in the writer. */
  lemma ReplayWritesTheSameHeaders(writer: map<string, seq<string>>, raw: Raw,
                                   original: map<string, seq<string>>, replay: map<string, seq<string>>)
    requires WrittenFrom(writer, Capture(raw).headers, original) && WrittenFrom(writer, Capture(raw).headers, replay)
    ensures original == replay
  {
    var headers := Capture(raw).headers;
    var a: seq<string> :| Lists(a, headers) && original == Written(writer, headers, a);
    var b: seq<string> :| Lists(b, headers) && replay == Written(writer, headers, b);
    OrdersAgree(writer, raw, a, b);
  }

  lemma OrdersAgree(writer: map<string, seq<string>>, raw: Raw, a: seq<string>, b: seq<string>)
    requires Lists(a, Capture(raw).headers) && Lists(b, Capture(raw).headers)
    ensures Written(writer, Capture(raw).headers, a) == Written(writer, Capture(raw).headers, b)
  {
    CapturedOrder(writer, raw, a);
    CapturedOrder(writer, raw, b);
    SameNames(raw, a, b);
  }

  lemma SameNames(raw: Raw, a: seq<string>, b: seq<string>)
    requires Lists(a, Capture(raw).headers) && Lists(b, Capture(raw).headers)
    ensures CanonicalNames(a) == CanonicalNames(b)
  {
    forall c ensures c in CanonicalNames(a) <==> c in CanonicalNames(b) {
      NamesListed(raw, a, c);
      NamesListed(raw, b, c);
    }
  }

  lemma CapturedOrder(writer: map<string, seq<string>>, raw: Raw, order: seq<string>)
    requires Lists(order, Capture(raw).headers)
    ensures Written(writer, Capture(raw).headers, order) == writer + FirstValues(raw.headers, CanonicalNames(order))
  {
    WriteOrderIrrelevant(writer, raw.headers, order);
  }

  /** Whatever order the captured headers are visited in, for the original or for a replay, the
      writer ends with the same headers: no two collapsed names clash with different values. */
  lemma {:induction false} WriteOrderIrrelevant(writer: map<string, seq<string>>, headers: map<string, seq<string>>,
                                                order: seq<string>)
    requires forall i :: 0 <= i < |order| ==> order[i] in headers
    ensures Written(writer, Collapsed(headers), order) == Delivered(writer, headers, order)
    decreases order
  {
    if order != [] {
      var c := Canonical(order[0]);
      WriteOrderIrrelevant(writer[c := [FirstAt(headers, c)]], headers, order[1..]);
      DeliveredFirst(writer, headers, order);
    }
  }

  lemma DeliveredFirst(writer: map<string, seq<string>>, headers: map<string, seq<string>>, order: seq<string>)
    requires order != []
    ensures var c := Canonical(order[0]);
            Delivered(writer, headers, order) == Delivered(writer[c := [FirstAt(headers, c)]], headers, order[1..])
  {
    OverlayOne(writer, headers, Canonical(order[0]), CanonicalNames(order[1..]));
  }

  lemma OverlayOne(writer: map<string, seq<string>>, headers: map<string, seq<string>>, c: string, names: set<string>)
    ensures writer + FirstValues(headers, {c} + names)
      == writer[c := [FirstAt(headers, c)]] + FirstValues(headers, names)
  {
  }

  // ---------------------------------------------------------------- the protocol

  datatype Entry = Processing | Done(response: Response)

  datatype Reply = StoreError | Conflict | Answer(response: Response)

  /** Where a keyed request is between two store calls. */
  datatype Request =
    | Arriving                       // before SetNX
    | Acquired                       // SetNX returned true; the handler is about to run
    | Captured(response: Response)   // the handler has run; before Set
    | Replying(response: Response)   // after Set, whatever it returned
    | Checking                       // SetNX returned false; before Get
    | Replied(reply: Reply)
    | Panicked                       // the handler panicked; nothing is stored or written here

  /** `applied` says whether a store call that returned an error took effect all the same. */
  datatype Act =
    | Arrive
    | SetNX
    | SetNXFails(applied: bool)
    | Handle(raw: Raw)
    | HandlerPanics
    | Set
    | SetFails(applied: bool)
    | Write
    | Get
    | GetFails
    | Expire

  datatype Event = Event(key: Key, who: RequestId, act: Act)

  datatype State = State(store: map<Key, Entry>, requests: map<RequestId, (Key, Request)>)

  function Initial(): State { State(map[], map[]) }

  function Lookup(store: map<Key, Entry>, key: Key): Option<Entry> {
    if key in store then Some(store[key]) else None
  }

  function Update(store: map<Key, Entry>, key: Key, entry: Option<Entry>): (updated: map<Key, Entry>)
    ensures Lookup(updated, key) == entry
    ensures forall k :: k != key ==> Lookup(updated, k) == Lookup(store, k)
    ensures entry == Lookup(store, key) ==> updated == store
  {
    match entry
    case Some(e) => store[key := e]
    case None => store - {key}
  }

  /** One atomic step of one request: the new entry of its key and the request's next position. */
  function Advance(entry: Option<Entry>, req: Request, act: Act): Option<(Option<Entry>, Request)> {
    match (req, act)
    case (Arriving, SetNX) =>
      Some(if entry.None? then (Some(Processing), Acquired) else (entry, Checking))
    case (Arriving, SetNXFails(applied)) =>
      Some((if applied && entry.None? then Some(Processing) else entry, Replied(StoreError)))
    case (Acquired, Handle(raw)) =>
      if Writable(raw) then Some((entry, Captured(Capture(raw)))) else None
    case (Acquired, HandlerPanics) => Some((entry, Panicked))
    case (Captured(r), Set) => Some((Some(Done(r)), Replying(r)))
    case (Captured(r), SetFails(applied)) =>
      Some((if applied then Some(Done(r)) else entry, Replying(r)))
    case (Replying(r), Write) => Some((entry, Replied(Answer(r))))
    case (Checking, Get) => Some((entry, Replied(Judge(entry))))
    case (Checking, GetFails) => Some((entry, Replied(StoreError)))
    case _ => None
  }

  /** The reply to a duplicate: a missing key is a store error, and only an entry that decodes with
      a non-zero status is a completed response. */
  function Judge(entry: Option<Entry>): Reply {
    match entry
    case None => StoreError
    case Some(Processing) => Conflict
    case Some(Done(r)) => if r.status != 0 then Answer(r) else Conflict
  }

  function Apply(s: State, e: Event): Option<State> {
    match e.act
    case Arrive =>
      if e.who in s.requests then None else Some(s.(requests := s.requests[e.who := (e.key, Arriving)]))
    case Expire =>
      if e.key in s.store then Some(s.(store := s.store - {e.key})) else None
    case _ =>
      if e.who !in s.requests || s.requests[e.who].0 != e.key then None
      else
        match Advance(Lookup(s.store, e.key), s.requests[e.who].1, e.act)
        case None => None
        case Some((entry, req)) =>
          Some(State(Update(s.store, e.key, entry), s.requests[e.who := (e.key, req)]))
  }

  /** The state after a run, or None when some event cannot happen where it stands. */
  function Exec(s: State, es: seq<Event>): Option<State> {
    if es == [] then Some(s)
    else match Exec(s, es[..|es|-1])
      case None => None
      case Some(t) => Apply(t, es[|es|-1])
  }

  /** The handler runs of a key, panicking ones included. */
  function Runs(es: seq<Event>, key: Key): nat {
    if es == [] then 0
    else Runs(es[..|es|-1], key) + (if IsRun(es[|es|-1], key) then 1 else 0)
  }

  predicate IsRun(e: Event, key: Key) {
    e.key == key && (e.act.Handle? || e.act.HandlerPanics?)
  }

  function Expiries(es: seq<Event>, key: Key): nat {
    if es == [] then 0
    else Expiries(es[..|es|-1], key) + (if es[|es|-1].key == key && es[|es|-1].act.Expire? then 1 else 0)
  }

  lemma ExecStep(s: State, es: seq<Event>, e: Event)
    ensures Exec(s, es + [e]) == (match Exec(s, es) case None => None case Some(t) => Apply(t, e))
  {
    assert (es + [e])[..|es|] == es;
  }

  // ---------------------------------------------------------------- the middleware

  /** What the environment decides during one request: the outcome of each store call. */
  datatype Faults = Faults(setNX: Fault, getFails: bool, saving: Fault)
  datatype Fault = Fine | Fails(applied: bool)

  datatype Served = PassedThrough(handler: Option<Raw>) | Keyed(reply: Reply) | NoReply

  predicate TakesEffect(fault: Fault) { fault.Fine? || fault.applied }

  class Store {
    var entries: map<Key, Entry>

    constructor ()
      ensures entries == map[]
    {
      entries := map[];
    }

    method SetNX(key: Key, fault: Fault) returns (isNew: bool, err: bool)
      modifies this
      ensures err == fault.Fails?
      ensures !err ==> isNew == (key !in old(entries))
      ensures key !in old(entries) && (fault.Fine? || fault.applied) ==> entries == old(entries)[key := Processing]
      ensures key in old(entries) || (fault.Fails? && !fault.applied) ==> entries == old(entries)
    {
      isNew, err := key !in entries, fault.Fails?;
      if isNew && TakesEffect(fault) {
        entries := entries[key := Processing];
      }
    }

    method Get(key: Key) returns (entry: Option<Entry>)
      ensures entry == Lookup(entries, key)
    {
      entry := Lookup(entries, key);
    }

    method Set(key: Key, response: Response, fault: Fault)
      modifies this
      ensures fault.Fine? || fault.applied ==> entries == old(entries)[key := Done(response)]
      ensures fault.Fails? && !fault.applied ==> entries == old(entries)
    {
      if TakesEffect(fault) {
        entries := entries[key := Done(response)];
      }
    }
  }

  /** What a keyed caller is sent. */
  datatype Sent = Sent(status: int, headers: map<string, seq<string>>, body: string)

  const STORE_ERROR := "{\"error\":\"idempotency store error\"}\n"
  const CONFLICT := "{\"error\":\"concurrent request with same idempotency key\"}"

  method SendStoreError(writer: map<string, seq<string>>) returns (sent: Sent)
    ensures SentFor(writer, StoreError, sent)
  {
    var headers := writer - {"Content-Length"};
    headers := headers["Content-Type" := ["text/plain; charset=utf-8"]];
    headers := headers["X-Content-Type-Options" := ["nosniff"]];
    sent := Sent(500, headers, STORE_ERROR);
  }

  ghost predicate SentFor(writer: map<string, seq<string>>, reply: Reply, sent: Sent) {
    match reply
    case StoreError =>
      // http.Error: a plain-text body ending in a newline, and no length left over from elsewhere
      && sent.status == 500 && sent.body == STORE_ERROR
      && sent.headers == (writer - {"Content-Length"})
           ["Content-Type" := ["text/plain; charset=utf-8"]]["X-Content-Type-Options" := ["nosniff"]]
    case Conflict => sent == Sent(409, writer["Content-Type" := ["application/json"]], CONFLICT)
    case Answer(r) => sent.status == r.status && sent.body == r.body && WrittenFrom(writer, r.headers, sent.headers)
  }

  /** What the caller gets, by what the store holds for its key and which calls fail. */
  ghost predicate ServedAs(entries: map<Key, Entry>, key: Key, handler: Option<Raw>, faults: Faults, served: Served) {
    && (faults.setNX.Fails? ==> served == Keyed(StoreError))
    && (faults.setNX.Fine? && key !in entries ==>
          && (handler.None? ==> served == NoReply)
          && (handler.Some? ==>
                served.Keyed? && served.reply.Answer? && Captures(handler.value, served.reply.response)))
    && (faults.setNX.Fine? && key in entries ==>
      served.Keyed? && DuplicateReply(entries, key, faults.getFails, served.reply))
  }

  /** The reply to a duplicate: only an entry that decodes with a non-zero status is a completed response. */
  ghost predicate DuplicateReply(entries: map<Key, Entry>, key: Key, getFails: bool, reply: Reply) {
    && (reply == StoreError <==> getFails || key !in entries)
    && (forall r :: reply == Answer(r) <==> !getFails && key in entries && entries[key] == Done(r) && r.status != 0)
    && (reply == Conflict <==>
          !getFails && key in entries && (entries[key].Processing? || entries[key].response.status == 0))
  }

  /** What is left in the store: a completed response only if the handler returned and the save took effect. */
  ghost predicate LeftAs(entries: map<Key, Entry>, key: Key, handler: Option<Raw>, faults: Faults,
                         left: map<Key, Entry>) {
    if key in entries || (faults.setNX.Fails? && !faults.setNX.applied) then left == entries
    else
      && key in left && left == entries[key := left[key]]
      && if faults.setNX.Fine? && handler.Some? && (faults.saving.Fine? || faults.saving.applied) then
           left[key].Done? && Captures(handler.value, left[key].response)
         else left[key] == Processing
  }

  /** The middleware on one request that no other overlaps: an execution of the protocol by `who`.
      `handler` is what the wrapped handler writes, or None when it panics. A handler that is passed through
      writes to the caller itself. */
  method Serve(store: Store, key: string, handler: Option<Raw>, faults: Faults, who: RequestId,
               writer: map<string, seq<string>>)
    returns (served: Served, sent: Option<Sent>, ghost trace: seq<Event>)
    requires handler.Some? ==> Writable(handler.value)
    modifies store
    ensures key == "" ==> served == PassedThrough(handler) && store.entries == old(store.entries)
    ensures if served.Keyed? then sent.Some? && SentFor(writer, served.reply, sent.value) else sent.None?
    ensures served == Keyed(StoreError) ==> sent.value.status == 500
    ensures served == Keyed(Conflict) ==> sent.value.status == 409
    ensures served.Keyed? && served.reply.Answer? ==>
      sent.value.status == served.reply.response.status && sent.value.body == served.reply.response.body
    ensures key != "" ==> ServedAs(old(store.entries), "idem:" + key, handler, faults, served)
    ensures key != "" ==> LeftAs(old(store.entries), "idem:" + key, handler, faults, store.entries)
    ensures key != "" ==>
      Exec(State(old(store.entries), map[]), trace)
      == Some(State(store.entries,
                    map[who := ("idem:" + key, if served.Keyed? then Replied(served.reply) else Panicked)]))
    ensures key != "" && served.NoReply? ==> handler.None? && Runs(trace, "idem:" + key) == 1
  {
    if key == "" {
      return PassedThrough(handler), None, [];
    }
    var storeKey := "idem:" + key;
    ghost var start := State(store.entries, map[]);
    trace := [Event(storeKey, who, Arrive)];
    ArrivesAlone(store.entries, storeKey, who);
    ghost var before := store.entries;
    var isNew, err := store.SetNX(storeKey, faults.setNX);
    trace := Log(start, trace, before, storeKey, who, Arriving,
                 if err then SetNXFails(faults.setNX.applied) else Act.SetNX);
    var reply, toCaller;
    if err {
      toCaller := SendStoreError(writer);
      return Keyed(StoreError), Some(toCaller), trace;
    }
    if isNew {
      if handler.None? {
        trace := Log(start, trace, store.entries, storeKey, who, Acquired, HandlerPanics);
        return NoReply, None, trace;
      }
      reply, toCaller, trace := ServeFirst(store, storeKey, handler.value, faults.saving, who, writer, start, trace);
    } else {
      reply, toCaller, trace := ServeDuplicate(store, storeKey, faults.getFails, who, writer, start, trace);
    }
    return Keyed(reply), Some(toCaller), trace;
  }

  /** The branch of the request that inserted the key. */
  method ServeFirst(store: Store, storeKey: Key, raw: Raw, saving: Fault, who: RequestId,
                    writer: map<string, seq<string>>, ghost start: State, ghost before: seq<Event>)
    returns (reply: Reply, sent: Sent, ghost trace: seq<Event>)
    requires Writable(raw) && Exec(start, before) == Some(State(store.entries, map[who := (storeKey, Acquired)]))
    modifies store
    ensures reply == Answer(Capture(raw)) && Captures(raw, Capture(raw)) && SentFor(writer, reply, sent)
    ensures (raw.status.Some? ==> sent.status == raw.status.value) && (raw.status.None? ==> sent.status == 200)
    ensures sent.body == raw.body
    ensures store.entries == if saving.Fine? || saving.applied then old(store.entries)[storeKey := Done(Capture(raw))]
                             else old(store.entries)
    ensures Exec(start, trace) == Some(State(store.entries, map[who := (storeKey, Replied(reply))]))
  {
    var status := if raw.status.Some? then raw.status.value else 200;
    var headers := Collapse(raw.headers);
    var response := Response(status, headers, raw.body);
    trace := Log(start, before, store.entries, storeKey, who, Acquired, Handle(raw));
    ghost var held := store.entries;
    store.Set(storeKey, response, saving);
    trace := Log(start, trace, held, storeKey, who, Captured(response),
                 if saving.Fine? then Act.Set else SetFails(saving.applied));
    trace := Log(start, trace, store.entries, storeKey, who, Replying(response), Write);
    var written := WriteHeaders(writer, headers);
    sent := Sent(status, written, raw.body);
    reply := Answer(response);
  }

  /** The branch of a request that found the key. */
  method ServeDuplicate(store: Store, storeKey: Key, getFails: bool, who: RequestId,
                        writer: map<string, seq<string>>, ghost start: State, ghost before: seq<Event>)
    returns (reply: Reply, sent: Sent, ghost trace: seq<Event>)
    requires Exec(start, before) == Some(State(store.entries, map[who := (storeKey, Checking)]))
    ensures DuplicateReply(store.entries, storeKey, getFails, reply) && SentFor(writer, reply, sent)
    ensures reply.Conflict? ==> sent.status == 409
    ensures reply.StoreError? ==> sent.status == 500
    ensures reply.Answer? ==> sent.status == reply.response.status && sent.body == reply.response.body
    ensures Exec(start, trace) == Some(State(store.entries, map[who := (storeKey, Replied(reply))]))
  {
    if getFails {
      trace := Log(start, before, store.entries, storeKey, who, Checking, GetFails);
      sent := SendStoreError(writer);
      return StoreError, sent, trace;
    }
    var entry := store.Get(storeKey);
    trace := Log(start, before, store.entries, storeKey, who, Checking, Act.Get);
    reply := Judge(entry);
    match reply {
      case StoreError => sent := SendStoreError(writer);
      case Conflict => sent := Sent(409, writer["Content-Type" := ["application/json"]], CONFLICT);
      case Answer(response) =>
        var written := WriteHeaders(writer, response.headers);
        sent := Sent(response.status, written, response.body);
    }
  }

  lemma ArrivesAlone(store: map<Key, Entry>, key: Key, who: RequestId)
    ensures Exec(State(store, map[]), [Event(key, who, Arrive)]) == Some(State(store, map[who := (key, Arriving)]))
    ensures Runs([Event(key, who, Arrive)], key) == 0
  {
    assert Exec(State(store, map[]), []) == Some(State(store, map[]));
  }

  /** `trace` followed by one more step of its only request. */
  lemma Log(start: State, trace: seq<Event>, store: map<Key, Entry>, key: Key, who: RequestId, req: Request, act: Act)
    returns (longer: seq<Event>)
    requires Exec(start, trace) == Some(State(store, map[who := (key, req)]))
    requires Advance(Lookup(store, key), req, act).Some?
    ensures var (entry, next) := Advance(Lookup(store, key), req, act).value;
            Exec(start, longer) == Some(State(Update(store, key, entry), map[who := (key, next)]))
    ensures Runs(longer, key) == Runs(trace, key) + (if act.Handle? || act.HandlerPanics? then 1 else 0)
  {
    var e := Event(key, who, act);
    ExecStep(start, trace, e);
    longer := trace + [e];
    assert longer[..|trace|] == trace;
    var (entry, next) := Advance(Lookup(store, key), req, act).value;
    assert map[who := (key, req)][who := (key, next)] == map[who := (key, next)];
  }

  /** A request and another for the same key after it, with no fault and no expiry: whatever the second handler would
      do, the second caller is sent exactly what the first was, which is what the first handler wrote. */
  method ServeTwice(store: Store, key: string, raw: Raw, other: Option<Raw>, who: RequestId, later: RequestId,
                    writer: map<string, seq<string>>)
    returns (first: Sent, second: Sent)
    requires key != "" && "idem:" + key !in store.entries && Writable(raw) && (other.Some? ==> Writable(other.value))
    modifies store
    ensures second == first
    ensures first.status == (if raw.status.Some? then raw.status.value else 200) && first.body == raw.body
    ensures WrittenFrom(writer, Capture(raw).headers, first.headers)
  {
    var faults := Faults(Fine, false, Fine);
    var served, sent, _ := Serve(store, key, Some(raw), faults, who, writer);
    CapturesOnly(raw, served.reply.response);
    CapturesOnly(raw, store.entries["idem:" + key].response);
    var again, replay, _ := Serve(store, key, other, faults, later, writer);
    CaptureCaptures(raw);
    assert again == Keyed(Answer(Capture(raw)));
    ReplayWritesTheSameHeaders(writer, raw, sent.value.headers, replay.value.headers);
    return sent.value, replay.value;
  }

  /** What is captured is determined by what the handler wrote. */
  lemma CapturesOnly(raw: Raw, r: Response)
    requires Captures(raw, r)
    ensures r == Capture(raw)
  {
    assert r.headers == Capture(raw).headers;
  }
}
