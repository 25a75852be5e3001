/** Kafka message headers as pkg/broker/kafka handles them: an association list that must act as a map from the
    producer, through trace-context injection, to the consumer. */
module KafkaHeaders {
  import opened Common

  datatype Header = Header(key: string, value: string)

  type Headers = seq<Header>

  // ---------------------------------------------------------------- two readings of a list

  /** The reading of Get: the first header of a key counts. */
  function FirstMap(hs: Headers): map<string, string> {
    if hs == [] then map[]
    else
      var m, h := FirstMap(hs[..|hs|-1]), hs[|hs|-1];
      if h.key in m then m else m[h.key := h.value]
  }

  /** The reading of the consumer: the last header of a key counts. */
  function LastMap(hs: Headers): map<string, string> {
    if hs == [] then map[] else LastMap(hs[..|hs|-1])[hs[|hs|-1].key := hs[|hs|-1].value]
  }

  predicate IsFirst(hs: Headers, i: nat, key: string) {
    i < |hs| && hs[i].key == key && forall j :: 0 <= j < i ==> hs[j].key != key
  }

  predicate IsLast(hs: Headers, i: nat, key: string) {
    i < |hs| && hs[i].key == key && forall j :: i < j < |hs| ==> hs[j].key != key
  }

  predicate HasKey(hs: Headers, key: string) {
    exists i :: 0 <= i < |hs| && hs[i].key == key
  }

  predicate Repeated(hs: Headers, key: string) {
    exists i, j :: 0 <= i < j < |hs| && hs[i].key == key && hs[j].key == key
  }

  ghost predicate DistinctKeys(hs: Headers) {
    forall i, j :: 0 <= i < j < |hs| ==> hs[i].key != hs[j].key
  }

  lemma {:induction false} FirstMapAt(hs: Headers, key: string)
    ensures key in FirstMap(hs) <==> HasKey(hs, key)
    ensures forall i: nat :: IsFirst(hs, i, key) ==> key in FirstMap(hs) && FirstMap(hs)[key] == hs[i].value
  {
    if hs != [] {
      var n := |hs| - 1;
      var init := hs[..n];
      FirstMapAt(init, key);
      HasKeyAdd(init, hs[n], key);
      assert init + [hs[n]] == hs;
      forall i: nat | IsFirst(hs, i, key) ensures key in FirstMap(hs) && FirstMap(hs)[key] == hs[i].value {
        if i < n {
          assert IsFirst(init, i, key);
        } else {
          assert forall j :: 0 <= j < n ==> init[j].key == hs[j].key;
        }
      }
    }
  }

  lemma {:induction false} LastMapAt(hs: Headers, key: string)
    ensures key in LastMap(hs) <==> HasKey(hs, key)
    ensures forall i: nat :: IsLast(hs, i, key) ==> key in LastMap(hs) && LastMap(hs)[key] == hs[i].value
  {
    if hs != [] {
      var n := |hs| - 1;
      var init := hs[..n];
      LastMapAt(init, key);
      HasKeyAdd(init, hs[n], key);
      assert init + [hs[n]] == hs;
      forall i: nat | IsLast(hs, i, key) ensures key in LastMap(hs) && LastMap(hs)[key] == hs[i].value {
        if i < n { assert IsLast(init, i, key); }
      }
    }
  }

  lemma HasKeyAdd(hs: Headers, h: Header, key: string)
    ensures HasKey(hs + [h], key) <==> HasKey(hs, key) || h.key == key
  {
    var longer := hs + [h];
    assert longer[|hs|] == h;
    if i :| 0 <= i < |hs| && hs[i].key == key { assert longer[i].key == key; }
  }

  lemma {:induction false} FirstExists(hs: Headers, key: string) returns (i: nat)
    requires HasKey(hs, key)
    ensures IsFirst(hs, i, key)
  {
    i := 0;
    while hs[i].key != key
      invariant i < |hs| && forall j :: 0 <= j < i ==> hs[j].key != key
      decreases |hs| - i
    {
      var k :| 0 <= k < |hs| && hs[k].key == key;
      i := i + 1;
    }
  }

  lemma {:induction false} LastExists(hs: Headers, key: string) returns (i: nat)
    requires HasKey(hs, key)
    ensures IsLast(hs, i, key)
  {
    i := |hs| - 1;
    while hs[i].key != key
      invariant i < |hs| && forall j :: i < j < |hs| ==> hs[j].key != key
      decreases i
    {
      var k :| 0 <= k < |hs| && hs[k].key == key;
      i := i - 1;
    }
  }

  /** Get and the consumer's map agree on a key exactly when its first and last headers hold the same value;
      so they can differ only on a repeated key. */
  lemma ReadingsAgree(hs: Headers, key: string)
    requires HasKey(hs, key)
    ensures key in FirstMap(hs) && key in LastMap(hs)
    ensures FirstMap(hs)[key] == LastMap(hs)[key]
       <==> forall i: nat, j: nat :: IsFirst(hs, i, key) && IsLast(hs, j, key) ==> hs[i].value == hs[j].value
    ensures FirstMap(hs)[key] != LastMap(hs)[key] ==> Repeated(hs, key)
  {
    FirstMapAt(hs, key);
    LastMapAt(hs, key);
    var i := FirstExists(hs, key);
    var j := LastExists(hs, key);
  }

  lemma DistinctReadingsAgree(hs: Headers)
    requires DistinctKeys(hs)
    ensures FirstMap(hs) == LastMap(hs)
  {
    forall key ensures key in FirstMap(hs) <==> key in LastMap(hs) {
      FirstMapAt(hs, key);
      LastMapAt(hs, key);
    }
    forall key | key in FirstMap(hs) ensures FirstMap(hs)[key] == LastMap(hs)[key] {
      FirstMapAt(hs, key);
      ReadingsAgree(hs, key);
    }
  }

  // ---------------------------------------------------------------- setting one header

  /** The position of the first header of a key, or the length of the list. */
  function FirstPosition(hs: Headers, key: string): (i: nat)
    ensures i <= |hs| && (i < |hs| ==> IsFirst(hs, i, key)) && (i == |hs| ==> !HasKey(hs, key))
  {
    if hs == [] then 0
    else
      var i := FirstPosition(hs[..|hs|-1], key);
      if i == |hs| - 1 && hs[i].key != key then |hs| else i
  }

  function SetIn(hs: Headers, key: string, value: string): Headers {
    var i := FirstPosition(hs, key);
    if i < |hs| then hs[i := Header(key, value)] else hs + [Header(key, value)]
  }

  lemma SetKeepsOthers(hs: Headers, key: string, value: string)
    ensures var t := SetIn(hs, key, value);
            |hs| <= |t| && forall j :: 0 <= j < |hs| ==>
              t[j].key == hs[j].key && (j != FirstPosition(hs, key) ==> t[j] == hs[j])
    ensures var i := FirstPosition(hs, key); var t := SetIn(hs, key, value);
            i < |t| && t[i] == Header(key, value) && |t| == if HasKey(hs, key) then |hs| else |hs| + 1
  {}

  /** Setting keeps distinct keys distinct. */
  lemma SetKeepsDistinct(hs: Headers, key: string, value: string)
    requires DistinctKeys(hs)
    ensures DistinctKeys(SetIn(hs, key, value))
  {
    SetKeepsOthers(hs, key, value);
  }

  lemma SetHasKey(hs: Headers, key: string, value: string, other: string)
    ensures HasKey(SetIn(hs, key, value), other) <==> HasKey(hs, other) || other == key
  {
    SetKeepsOthers(hs, key, value);
    var t := SetIn(hs, key, value);
    if j :| 0 <= j < |hs| && hs[j].key == other { assert t[j].key == other; }
    if j :| 0 <= j < |t| && t[j].key == other { assert j < |hs| ==> hs[j].key == other; }
  }

  /** Under Get, setting a header is a map update, whatever the list holds. */
  lemma SetUpdatesFirstMap(hs: Headers, key: string, value: string)
    ensures FirstMap(SetIn(hs, key, value)) == FirstMap(hs)[key := value]
  {
    var t := SetIn(hs, key, value);
    forall other ensures other in FirstMap(t) <==> other in FirstMap(hs)[key := value] {
      FirstMapAt(t, other);
      FirstMapAt(hs, other);
      SetHasKey(hs, key, value, other);
    }
    forall other | other in FirstMap(t) ensures FirstMap(t)[other] == FirstMap(hs)[key := value][other] {
      SetLookup(hs, key, value, other);
    }
  }

  lemma SetLookup(hs: Headers, key: string, value: string, other: string)
    requires other in FirstMap(SetIn(hs, key, value))
    ensures other == key || other in FirstMap(hs)
    ensures FirstMap(SetIn(hs, key, value))[other] == if other == key then value else FirstMap(hs)[other]
  {
    var t := SetIn(hs, key, value);
    FirstMapAt(t, other);
    SetKeepsOthers(hs, key, value);
    if other == key {
      assert IsFirst(t, FirstPosition(hs, key), key);
    } else {
      FirstMapAt(hs, other);
      SetHasKey(hs, key, value, other);
      var i := FirstExists(hs, other);
      assert IsFirst(t, i, other);
    }
  }

  /** In the consumer's reading it is a map update exactly when the key is not repeated, or its last header
      already holds the value. */
  lemma SetUpdatesLastMap(hs: Headers, key: string, value: string)
    ensures LastMap(SetIn(hs, key, value)) == LastMap(hs)[key := value]
       <==> !Repeated(hs, key) || (key in LastMap(hs) && LastMap(hs)[key] == value)
  {
    var t := SetIn(hs, key, value);
    forall other ensures other in LastMap(t) <==> other in LastMap(hs)[key := value] {
      LastMapAt(t, other);
      LastMapAt(hs, other);
      SetHasKey(hs, key, value, other);
    }
    forall other | other in LastMap(t) && other != key ensures LastMap(t)[other] == LastMap(hs)[other] {
      SetKeepsLast(hs, key, value, other);
    }
    SetLast(hs, key, value);
  }

  lemma SetKeepsLast(hs: Headers, key: string, value: string, other: string)
    requires other != key && other in LastMap(SetIn(hs, key, value))
    ensures other in LastMap(hs) && LastMap(SetIn(hs, key, value))[other] == LastMap(hs)[other]
  {
    var t := SetIn(hs, key, value);
    LastMapAt(t, other);
    LastMapAt(hs, other);
    SetHasKey(hs, key, value, other);
    SetKeepsOthers(hs, key, value);
    var i := LastExists(hs, other);
    assert IsLast(t, i, other);
  }

  lemma SetLast(hs: Headers, key: string, value: string)
    ensures var t := SetIn(hs, key, value);
            && key in LastMap(t)
            && if Repeated(hs, key) then key in LastMap(hs) && LastMap(t)[key] == LastMap(hs)[key]
               else LastMap(t)[key] == value
  {
    var t := SetIn(hs, key, value);
    LastMapAt(t, key);
    LastMapAt(hs, key);
    SetKeepsOthers(hs, key, value);
    SetHasKey(hs, key, value, key);
    if Repeated(hs, key) {
      var i := LastExists(hs, key);
      assert i != FirstPosition(hs, key);
      assert IsLast(t, i, key);
    } else {
      assert IsLast(t, FirstPosition(hs, key), key);
    }
  }

  // ---------------------------------------------------------------- the carrier

  /** The headers behind the pointer that the propagator is given. */
  class Carrier {
    var headers: Headers

    constructor (headers: Headers)
      ensures this.headers == headers
    {
      this.headers := headers;
    }

    method Get(key: string) returns (value: string)
      ensures value == Read(headers, key)
      ensures forall i: nat :: IsFirst(headers, i, key) ==> value == headers[i].value
      ensures (forall i :: 0 <= i < |headers| ==> headers[i].key != key) ==> value == ""
    {
      for i := 0 to |headers|
        invariant forall j :: 0 <= j < i ==> headers[j].key != key
      {
        if headers[i].key == key {
          LookupFirst(headers, i, key);
          return headers[i].value;
        }
      }
      LookupNone(headers, key);
      return "";
    }

    /** Overwrites the first header of the key in place, or appends one. */
    method Set(key: string, value: string)
      modifies this
      ensures headers == SetIn(old(headers), key, value)
    {
      for i := 0 to |headers|
        invariant headers == old(headers)
        invariant forall j :: 0 <= j < i ==> headers[j].key != key
      {
        if headers[i].key == key {
          OnlyFirst(headers, i, key);
          headers := headers[i := headers[i].(value := value)];
          return;
        }
      }
      headers := headers + [Header(key, value)];
    }

    method Keys() returns (keys: seq<string>)
      ensures |keys| == |headers| && forall i :: 0 <= i < |headers| ==> keys[i] == headers[i].key
    {
      keys := [];
      for i := 0 to |headers|
        invariant |keys| == i && forall j :: 0 <= j < i ==> keys[j] == headers[j].key
      {
        keys := keys + [headers[i].key];
      }
    }
  }

  lemma LookupFirst(hs: Headers, i: nat, key: string)
    requires IsFirst(hs, i, key)
    ensures key in FirstMap(hs) && FirstMap(hs)[key] == hs[i].value
  {
    FirstMapAt(hs, key);
  }

  lemma LookupNone(hs: Headers, key: string)
    requires forall j :: 0 <= j < |hs| ==> hs[j].key != key
    ensures key !in FirstMap(hs)
  {
    FirstMapAt(hs, key);
  }

  lemma OnlyFirst(hs: Headers, i: nat, key: string)
    requires IsFirst(hs, i, key)
    ensures FirstPosition(hs, key) == i
  {
    var k := FirstPosition(hs, key);
    assert k != |hs|;
  }

  // ---------------------------------------------------------------- trace context

  const TRACEPARENT := "traceparent"
  const TRACESTATE := "tracestate"

  /** A valid span context in its W3C text form; the state may be empty. */
  datatype Span = Span(parent: string, state: string)

  /** The headers the W3C propagator sets, in its order; none without a valid span. */
  function TraceHeaders(span: Option<Span>): Headers {
    match span
    case None => []
    case Some(s) => (if s.state != "" then [Header(TRACESTATE, s.state)] else []) + [Header(TRACEPARENT, s.parent)]
  }

  function SetAll(hs: Headers, entries: Headers): Headers {
    if entries == [] then hs
    else SetIn(SetAll(hs, entries[..|entries|-1]), entries[|entries|-1].key, entries[|entries|-1].value)
  }

  method InjectTraceContext(span: Option<Span>, headers: Headers) returns (injected: Headers)
    ensures injected == SetAll(headers, TraceHeaders(span))
    ensures span.None? ==> injected == headers
    ensures span.Some? ==>
      injected == SetIn(if span.value.state == "" then headers else SetIn(headers, TRACESTATE, span.value.state),
                        TRACEPARENT, span.value.parent)
  {
    var carrier := new Carrier(headers);
    if span.Some? {
      ghost var entries := TraceHeaders(span);
      if span.value.state != "" {
        carrier.Set(TRACESTATE, span.value.state);
      }
      assert carrier.headers == SetAll(headers, entries[..|entries|-1]);
      carrier.Set(TRACEPARENT, span.value.parent);
    }
    return carrier.headers;
  }

  /** Under Get, injected entries override whatever the list holds. */
  lemma {:induction false} SetAllUpdates(hs: Headers, entries: Headers)
    ensures FirstMap(SetAll(hs, entries)) == FirstMap(hs) + LastMap(entries)
  {
    if entries == [] {
      assert FirstMap(hs) + map[] == FirstMap(hs);
    } else {
      var n := |entries| - 1;
      SetAllUpdates(hs, entries[..n]);
      SetUpdatesFirstMap(SetAll(hs, entries[..n]), entries[n].key, entries[n].value);
      AddUpdate(FirstMap(hs), LastMap(entries[..n]), entries[n].key, entries[n].value);
    }
  }

  lemma AddUpdate(m: map<string, string>, n: map<string, string>, key: string, value: string)
    ensures (m + n)[key := value] == m + n[key := value]
  {}

  lemma {:induction false} SetAllKeepsDistinct(hs: Headers, entries: Headers)
    requires DistinctKeys(hs)
    ensures DistinctKeys(SetAll(hs, entries))
  {
    if entries != [] {
      var n := |entries| - 1;
      SetAllKeepsDistinct(hs, entries[..n]);
      SetKeepsDistinct(SetAll(hs, entries[..n]), entries[n].key, entries[n].value);
    }
  }

  // ---------------------------------------------------------------- producer to consumer

  /** A list of a map's entries, in any order. */
  ghost predicate ListsEntries(hs: Headers, m: map<string, string>) {
    DistinctKeys(hs) && LastMap(hs) == m
  }

  /** The loop over a Go map: the order of the keys is arbitrary. */
  method ListHeaders(m: map<string, string>) returns (hs: Headers)
    ensures ListsEntries(hs, m)
  {
    hs := [];
    var rest := m.Keys;
    while rest != {}
      invariant rest <= m.Keys
      invariant DistinctKeys(hs) && forall i :: 0 <= i < |hs| ==> hs[i].key in m && hs[i].key !in rest
      invariant LastMap(hs) == m - rest
      decreases rest
    {
      var key :| key in rest;
      ListOneMore(m, rest, hs, key);
      hs := hs + [Header(key, m[key])];
      rest := rest - {key};
    }
  }

  lemma ListOneMore(m: map<string, string>, rest: set<string>, hs: Headers, key: string)
    requires key in rest && rest <= m.Keys && LastMap(hs) == m - rest
    ensures LastMap(hs + [Header(key, m[key])]) == m - (rest - {key})
  {
    LastMapAdd(hs, Header(key, m[key]));
  }

  /** Every map can be listed. */
  lemma {:induction false} Listable(m: map<string, string>) returns (hs: Headers)
    ensures ListsEntries(hs, m)
    decreases |m|
  {
    hs := [];
    if key :| key in m {
      var less := m - {key};
      assert less.Keys == m.Keys - {key};
      hs := Listable(less);
      LastMapAt(hs, key);
      LastMapAdd(hs, Header(key, m[key]));
      hs := hs + [Header(key, m[key])];
    }
  }

  /** kafkaHeadersToMap: no headers give nil. */
  method ToMap(headers: Headers) returns (m: Option<map<string, string>>)
    ensures m == if headers == [] then None else Some(LastMap(headers))
  {
    if |headers| == 0 { return None; }
    var entries: map<string, string> := map[];
    for i := 0 to |headers|
      invariant entries == LastMap(headers[..i])
    {
      assert headers[..i+1][..i] == headers[..i];
      entries := entries[headers[i].key := headers[i].value];
    }
    assert headers[..|headers|] == headers;
    return Some(entries);
  }

  /** From producer to consumer: for every user map, every order in which its entries are listed and every span,
      the consumer's map is the user's map overridden by the trace headers, and no key is sent twice. */
  lemma EndToEnd(user: map<string, string>, hs: Headers, span: Option<Span>)
    requires ListsEntries(hs, user)
    ensures LastMap(SetAll(hs, TraceHeaders(span))) == user + LastMap(TraceHeaders(span))
    ensures DistinctKeys(SetAll(hs, TraceHeaders(span)))
  {
    SetAllUpdates(hs, TraceHeaders(span));
    SetAllKeepsDistinct(hs, TraceHeaders(span));
    DistinctReadingsAgree(hs);
    DistinctReadingsAgree(SetAll(hs, TraceHeaders(span)));
  }

  /** The propagator's parser: which parents it accepts, and the state it makes of a text, back in text form. A
      text of separators alone is accepted and makes the empty state. */
  datatype Parser = Parser(parent: string -> bool, state: string -> Option<string>)

  /** The state a text stands for; a text that does not parse is dropped. */
  function StateOf(parser: Parser, text: string): string {
    if parser.state(text).Some? then parser.state(text).value else ""
  }

  function Read(hs: Headers, key: string): string {
    if key in FirstMap(hs) then FirstMap(hs)[key] else ""
  }

  /** The remote span: none without a parent that parses. */
  function Extracted(parser: Parser, hs: Headers): Option<Span> {
    var parent, state := Read(hs, TRACEPARENT), Read(hs, TRACESTATE);
    if parent == "" || !parser.parent(parent) then None
    else Some(Span(parent, StateOf(parser, state)))
  }

  method ExtractTraceContext(parser: Parser, headers: Headers) returns (span: Option<Span>)
    ensures span == Extracted(parser, headers)
    ensures span.None? <==> Read(headers, TRACEPARENT) == "" || !parser.parent(Read(headers, TRACEPARENT))
    ensures span.Some? ==>
      && span.value.parent == Read(headers, TRACEPARENT)
      && var state := parser.state(Read(headers, TRACESTATE));
         span.value.state == if state.Some? then state.value else ""
  {
    var carrier := new Carrier(headers);
    var parent := carrier.Get(TRACEPARENT);
    if parent == "" || !parser.parent(parent) { return None; }
    var state := carrier.Get(TRACESTATE);
    return Some(Span(parent, StateOf(parser, state)));
  }

  lemma LastMapAdd(hs: Headers, h: Header)
    ensures LastMap(hs + [h]) == LastMap(hs)[h.key := h.value]
  {
    assert (hs + [h])[..|hs|] == hs;
  }

  lemma TraceHeadersMap(s: Span)
    ensures LastMap(TraceHeaders(Some(s))) ==
            if s.state == "" then map[TRACEPARENT := s.parent]
            else map[TRACESTATE := s.state, TRACEPARENT := s.parent]
  {
    var parent, state := Header(TRACEPARENT, s.parent), Header(TRACESTATE, s.state);
    LastMapAdd([], parent);
    LastMapAdd([], state);
    LastMapAdd([] + [state], parent);
    assert [] + [parent] == [parent] && [] + [state] == [state];
  }

  /** The parser reads back the text form of this span, and makes nothing of no text. */
  predicate Accepts(parser: Parser, s: Span) {
    && s.parent != "" && parser.parent(s.parent)
    && StateOf(parser, s.state) == s.state && StateOf(parser, "") == ""
  }

  /** The consumer extracts the producer's own span exactly when the span has a trace state, or the user's headers
      hold none that parses to one: a producer without trace state passes on a stale one from the user's headers. */
  lemma SpanRoundTrip(parser: Parser, user: map<string, string>, hs: Headers, s: Span)
    requires ListsEntries(hs, user) && Accepts(parser, s)
    ensures Extracted(parser, SetAll(hs, TraceHeaders(Some(s)))) == Some(s)
       <==> s.state != "" || TRACESTATE !in user || StateOf(parser, user[TRACESTATE]) == ""
  {
    ReadsOfSent(user, hs, s);
  }

  /** The two texts the consumer finds. */
  lemma ReadsOfSent(user: map<string, string>, hs: Headers, s: Span)
    requires ListsEntries(hs, user)
    ensures var sent := SetAll(hs, TraceHeaders(Some(s)));
            && Read(sent, TRACEPARENT) == s.parent
            && Read(sent, TRACESTATE)
               == if s.state != "" then s.state else if TRACESTATE in user then user[TRACESTATE] else ""
  {
    var sent := SetAll(hs, TraceHeaders(Some(s)));
    EndToEnd(user, hs, Some(s));
    DistinctReadingsAgree(sent);
    TraceHeadersMap(s);
    KeysDiffer();
    Overlaid(user, TRACESTATE, s.state, TRACEPARENT, s.parent);
  }

  lemma KeysDiffer()
    ensures TRACESTATE != TRACEPARENT
  {
    assert |TRACESTATE| != |TRACEPARENT|;
  }

  lemma Overlaid(user: map<string, string>, a: string, s: string, b: string, x: string)
    requires a != b
    ensures var one, two := user + map[b := x], user + map[a := s, b := x];
            && b in one && one[b] == x && (a in one <==> a in user) && (a in user ==> one[a] == user[a])
            && b in two && two[b] == x && a in two && two[a] == s
  {}
}
