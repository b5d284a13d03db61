/** The SAX handler that turns parser callbacks into events, against a recursive reading of the
  document. */
module JsonVisitor {
  import opened AdmissionTypes

  // ------------------------------------------------------------------ documents and callbacks

  /** A text the parser hands over in pieces; where it cuts is up to the input buffer. */
  datatype Text = Text(parts: seq<string>, last: string)

  datatype Number = IntNumber(i: int) | UintNumber(u: nat) | DoubleNumber(d: real)

  /** A document together with the way the parser cuts its texts. */
  datatype Doc =
    | NullDoc
    | BoolDoc(b: bool)
    | NumberDoc(parts: seq<string>, number: Number)
    | StringDoc(text: Text)
    | ArrayDoc(elements: seq<Doc>)
    | ObjectDoc(members: seq<Member>)

  datatype Member = Member(key: Text, value: Doc)

  function Joined(parts: seq<string>): string {
    if parts == [] then "" else Joined(parts[..|parts| - 1]) + parts[|parts| - 1]
  }

  function Whole(t: Text): string { Joined(t.parts) + t.last }

  /** The handler's callbacks. `n` is the length so far, or in total, or the number of members. */
  datatype Callback =
    | OnArrayBegin | OnArrayEnd(n: nat)
    | OnObjectBegin | OnObjectEnd(n: nat)
    | OnKeyPart(s: string, n: nat) | OnKey(s: string, n: nat)
    | OnStringPart(s: string, n: nat) | OnString(s: string, n: nat)
    | OnNumberPart(s: string) | OnNumber(number: Number)
    | OnBool(b: bool) | OnNull

  function KeyPartCalls(parts: seq<string>): seq<Callback> {
    if parts == [] then []
    else KeyPartCalls(parts[..|parts| - 1]) + [OnKeyPart(parts[|parts| - 1], |Joined(parts)|)]
  }

  function KeyCalls(t: Text): seq<Callback> {
    KeyPartCalls(t.parts) + [OnKey(t.last, |Whole(t)|)]
  }

  function StringPartCalls(parts: seq<string>): seq<Callback> {
    if parts == [] then []
    else StringPartCalls(parts[..|parts| - 1]) + [OnStringPart(parts[|parts| - 1], |Joined(parts)|)]
  }

  function NumberPartCalls(parts: seq<string>): seq<Callback> {
    if parts == [] then [] else NumberPartCalls(parts[..|parts| - 1]) + [OnNumberPart(parts[|parts| - 1])]
  }

  /** What the parser calls for a document. */
  function Calls(d: Doc): seq<Callback>
    decreases d, 1
  {
    match d
    case NullDoc => [OnNull]
    case BoolDoc(b) => [OnBool(b)]
    case NumberDoc(parts, number) => NumberPartCalls(parts) + [OnNumber(number)]
    case StringDoc(t) => StringPartCalls(t.parts) + [OnString(t.last, |Whole(t)|)]
    case ArrayDoc(es) => [OnArrayBegin] + ElementCalls(es) + [OnArrayEnd(|es|)]
    case ObjectDoc(ms) => [OnObjectBegin] + MemberCalls(ms) + [OnObjectEnd(|ms|)]
  }

  function ElementCalls(es: seq<Doc>): seq<Callback>
    decreases es, 0
  {
    if es == [] then [] else Calls(es[0]) + ElementCalls(es[1..])
  }

  function MemberCalls(ms: seq<Member>): seq<Callback>
    decreases ms, 0
  {
    if ms == [] then []
    else
      var Member(key, value) := ms[0];
      assert value < ms[0];
      KeyCalls(key) + Calls(value) + MemberCalls(ms[1..])
  }

  // ------------------------------------------------------------------ the recursive reading

  function TextEvents(kind: EventKind, key: string, depth: nat, parts: seq<string>): seq<VisitEvent> {
    if parts == [] then []
    else
      var n := |parts| - 1;
      TextEvents(kind, key, depth, parts[..n])
      + [VisitEvent(kind, key, if kind == NumberPart then 0 else |Joined(parts)|, depth, value := TextValue(parts[n]))]
  }

  function NumberEvent(number: Number, key: string, depth: nat): VisitEvent {
    match number
    case IntNumber(i) => VisitEvent(Int64, key, 0, depth, value := IntValue(i))
    case UintNumber(u) => VisitEvent(Uint64, key, 0, depth, value := UintValue(u))
    case DoubleNumber(d) => VisitEvent(Double, key, 0, depth, value := DoubleValue(d))
  }

  /** The events of a value named `key` (empty for the root and for array elements) inside
    `depth` containers. Begin and End carry the container's own key and depth. */
  function DocEvents(d: Doc, key: string, depth: nat): seq<VisitEvent>
    decreases d, 1
  {
    match d
    case NullDoc => [VisitEvent(Null, key, 0, depth)]
    case BoolDoc(b) => [VisitEvent(Bool, key, 0, depth, value := BoolValue(b))]
    case NumberDoc(parts, number) =>
      TextEvents(NumberPart, key, depth, parts) + [NumberEvent(number, key, depth)]
    case StringDoc(t) =>
      TextEvents(StringPart, key, depth, t.parts)
      + [VisitEvent(String, key, |Whole(t)|, depth, value := TextValue(t.last))]
    case ArrayDoc(es) =>
      [VisitEvent(ArrayBegin, key, 0, depth)] + ElementEvents(es, depth + 1)
      + [VisitEvent(ArrayEnd, key, |es|, depth)]
    case ObjectDoc(ms) =>
      [VisitEvent(ObjectBegin, key, 0, depth)] + MemberEvents(ms, depth + 1)
      + [VisitEvent(ObjectEnd, key, |ms|, depth)]
  }

  function ElementEvents(es: seq<Doc>, depth: nat): seq<VisitEvent>
    decreases es, 0
  {
    if es == [] then [] else DocEvents(es[0], "", depth) + ElementEvents(es[1..], depth)
  }

  function KeyEvents(t: Text, depth: nat): seq<VisitEvent> {
    TextEvents(KeyPart, "", depth, t.parts) + [VisitEvent(Key, "", |Whole(t)|, depth, value := TextValue(t.last))]
  }

  function MemberEvents(ms: seq<Member>, depth: nat): seq<VisitEvent>
    decreases ms, 0
  {
    if ms == [] then []
    else
      var Member(key, value) := ms[0];
      assert value < ms[0];
      KeyEvents(key, depth) + DocEvents(value, Whole(key), depth)
      + MemberEvents(ms[1..], depth)
  }

  // ------------------------------------------------------------------ the handler's state

  datatype State = State(depth: nat, containerKeys: seq<string>, pendingKey: string)

  const INITIAL := State(0, [], "")

  /** A container end needs an open container. */
  predicate Accepts(p: State, cb: Callback) {
    cb.OnArrayEnd? || cb.OnObjectEnd? ==> p.containerKeys != [] && p.depth > 0
  }

  function EventOf(p: State, cb: Callback): VisitEvent
    requires Accepts(p, cb)
  {
    match cb
    case OnArrayBegin => VisitEvent(ArrayBegin, p.pendingKey, 0, p.depth)
    case OnObjectBegin => VisitEvent(ObjectBegin, p.pendingKey, 0, p.depth)
    case OnArrayEnd(n) =>
      VisitEvent(ArrayEnd, p.containerKeys[|p.containerKeys| - 1], n, p.depth - 1)
    case OnObjectEnd(n) =>
      VisitEvent(ObjectEnd, p.containerKeys[|p.containerKeys| - 1], n, p.depth - 1)
    case OnKeyPart(s, n) => VisitEvent(KeyPart, "", n, p.depth, value := TextValue(s))
    case OnKey(s, n) => VisitEvent(Key, "", n, p.depth, value := TextValue(s))
    case OnStringPart(s, n) => VisitEvent(StringPart, p.pendingKey, n, p.depth, value := TextValue(s))
    case OnString(s, n) => VisitEvent(String, p.pendingKey, n, p.depth, value := TextValue(s))
    case OnNumberPart(s) => VisitEvent(NumberPart, p.pendingKey, 0, p.depth, value := TextValue(s))
    case OnNumber(number) => NumberEvent(number, p.pendingKey, p.depth)
    case OnBool(b) => VisitEvent(Bool, p.pendingKey, 0, p.depth, value := BoolValue(b))
    case OnNull => VisitEvent(Null, p.pendingKey, 0, p.depth)
  }

  function Next(p: State, cb: Callback): State
    requires Accepts(p, cb)
  {
    match cb
    case OnArrayBegin => State(p.depth + 1, p.containerKeys + [p.pendingKey], "")
    case OnObjectBegin => State(p.depth + 1, p.containerKeys + [p.pendingKey], "")
    case OnArrayEnd(_) => State(p.depth - 1, p.containerKeys[..|p.containerKeys| - 1], p.pendingKey)
    case OnObjectEnd(_) => State(p.depth - 1, p.containerKeys[..|p.containerKeys| - 1], p.pendingKey)
    case OnKeyPart(s, _) => p.(pendingKey := p.pendingKey + s)
    case OnKey(s, _) => p.(pendingKey := p.pendingKey + s)
    case OnStringPart(_, _) => p
    case OnNumberPart(_) => p
    case _ => p.(pendingKey := "")
  }

  /** The handler: what it remembers between callbacks, the check and its latest decision. */
  class JsonVisitor<!S> {
    const check: Check<S>
    var checkState: S
    var decision: AdmissionDecision
    var depth: nat
    var containerKeys: seq<string>
    var pendingKey: string

    constructor (check: Check<S>, s: S)
      ensures this.check == check && checkState == s && decision == Admit(0.0)
      ensures At() == INITIAL
    {
      this.check, checkState, decision := check, s, Admit(0.0);
      depth, containerKeys, pendingKey := 0, [], "";
    }

    function At(): State
      reads this
    {
      State(depth, containerKeys, pendingKey)
    }

    method Emit(event: VisitEvent) returns (keepGoing: bool)
      modifies this`decision, this`checkState
      ensures (decision, checkState) == check(old(checkState), event)
      ensures keepGoing <==> decision.Admit?
    {
      var answer := check(checkState, event);
      decision, checkState := answer.0, answer.1;
      keepGoing := decision.Admit?;
    }

    method EmitLeaf(kind: EventKind, size: nat, value: Value) returns (keepGoing: bool)
      modifies this`decision, this`checkState, this`pendingKey
      ensures (decision, checkState)
           == check(old(checkState), VisitEvent(kind, old(pendingKey), size, depth, value := value))
      ensures pendingKey == "" && (keepGoing <==> decision.Admit?)
    {
      keepGoing := Emit(VisitEvent(kind, pendingKey, size, depth, value := value));
      pendingKey := "";
    }

    method BeginContainer(kind: EventKind) returns (keepGoing: bool)
      modifies this
      ensures At() == State(old(depth) + 1, old(containerKeys) + [old(pendingKey)], "")
      ensures (decision, checkState)
           == check(old(checkState), VisitEvent(kind, old(pendingKey), 0, old(depth)))
      ensures keepGoing <==> decision.Admit?
    {
      containerKeys := containerKeys + [pendingKey];
      pendingKey := "";
      var event := VisitEvent(kind, containerKeys[|containerKeys| - 1], 0, depth);
      depth := depth + 1;
      keepGoing := Emit(event);
    }

    method EndContainer(kind: EventKind, n: nat) returns (keepGoing: bool)
      requires containerKeys != [] && depth > 0
      modifies this
      ensures At()
           == State(old(depth) - 1, old(containerKeys)[..|old(containerKeys)| - 1], old(pendingKey))
      ensures (decision, checkState)
           == check(old(checkState), VisitEvent(kind, old(containerKeys)[|old(containerKeys)| - 1], n, old(depth) - 1))
      ensures keepGoing <==> decision.Admit?
    {
      depth := depth - 1;
      keepGoing := Emit(VisitEvent(kind, containerKeys[|containerKeys| - 1], n, depth));
      containerKeys := containerKeys[..|containerKeys| - 1];
    }

    /** One callback of the parser; false stops the parse. */
    method On(cb: Callback) returns (keepGoing: bool)
      requires Accepts(At(), cb)
      modifies this
      ensures At() == Next(old(At()), cb)
      ensures (decision, checkState) == check(old(checkState), EventOf(old(At()), cb))
      ensures keepGoing <==> decision.Admit?
    {
      match cb
      case OnArrayBegin => keepGoing := BeginContainer(ArrayBegin);
      case OnObjectBegin => keepGoing := BeginContainer(ObjectBegin);
      case OnArrayEnd(n) => keepGoing := EndContainer(ArrayEnd, n);
      case OnObjectEnd(n) => keepGoing := EndContainer(ObjectEnd, n);
      case OnKeyPart(s, n) =>
        pendingKey := pendingKey + s;
        keepGoing := Emit(VisitEvent(KeyPart, "", n, depth, value := TextValue(s)));
      case OnKey(s, n) =>
        pendingKey := pendingKey + s;
        keepGoing := Emit(VisitEvent(Key, "", n, depth, value := TextValue(s)));
      case OnStringPart(s, n) =>
        keepGoing := Emit(VisitEvent(StringPart, pendingKey, n, depth, value := TextValue(s)));
      case OnString(s, n) => keepGoing := EmitLeaf(String, n, TextValue(s));
      case OnNumberPart(s) =>
        keepGoing := Emit(VisitEvent(NumberPart, pendingKey, 0, depth, value := TextValue(s)));
      case OnNumber(IntNumber(i)) => keepGoing := EmitLeaf(Int64, 0, IntValue(i));
      case OnNumber(UintNumber(u)) => keepGoing := EmitLeaf(Uint64, 0, UintValue(u));
      case OnNumber(DoubleNumber(d)) => keepGoing := EmitLeaf(Double, 0, DoubleValue(d));
      case OnBool(b) => keepGoing := EmitLeaf(Bool, 0, BoolValue(b));
      case OnNull => keepGoing := EmitLeaf(Null, 0, NoValue);
    }
  }

  // ------------------------------------------------------------------ whole visits

  /** The callbacks never close a container that is not open. */
  ghost predicate Balanced(p: State, calls: seq<Callback>)
    decreases |calls|
  {
    calls == [] || (Accepts(p, calls[0]) && Balanced(Next(p, calls[0]), calls[1..]))
  }

  function Emitted(p: State, calls: seq<Callback>): seq<VisitEvent>
    requires Balanced(p, calls)
    decreases |calls|
  {
    if calls == [] then [] else [EventOf(p, calls[0])] + Emitted(Next(p, calls[0]), calls[1..])
  }

  /** The decision after feeding events to a check up to its first drop. */
  function Folded<S>(check: Check<S>, s: S, events: seq<VisitEvent>, last: AdmissionDecision)
    : AdmissionDecision
    decreases |events|
  {
    if events == [] || last.Drop? then last
    else
      var (decision, s') := check(s, events[0]);
      Folded(check, s', events[1..], decision)
  }

  /** The parser makes `calls`, unless one returns false, and then reports an error if `error`. */
  method VisitJson<S>(calls: seq<Callback>, error: bool, check: Check<S>, s: S, costForInvalid: real)
    returns (decision: AdmissionDecision)
    requires Balanced(INITIAL, calls)
    ensures var folded := Folded(check, s, Emitted(INITIAL, calls), Admit(0.0));
      decision == if folded.Admit? && error then Drop("Invalid JSON payload", costForInvalid) else folded
  {
    var visitor := new JsonVisitor(check, s);
    ghost var folded := Folded(check, s, Emitted(INITIAL, calls), Admit(0.0));
    var i, keepGoing := 0, true;
    while i < |calls| && keepGoing
      invariant i <= |calls|
      invariant visitor.check == check && fresh(visitor)
      invariant keepGoing <==> visitor.decision.Admit?
      invariant Balanced(visitor.At(), calls[i..])
      invariant folded
             == Folded(check, visitor.checkState, Emitted(visitor.At(), calls[i..]), visitor.decision)
      decreases |calls| - i
    {
      assert calls[i..][1..] == calls[i + 1..];
      ghost var events := Emitted(visitor.At(), calls[i..]);
      assert events[1..] == Emitted(Next(visitor.At(), calls[i]), calls[i + 1..]);
      keepGoing := visitor.On(calls[i]);
      i := i + 1;
    }
    if visitor.decision.Drop? {
      return visitor.decision;
    }
    if error {
      return Drop("Invalid JSON payload", costForInvalid);
    }
    decision := visitor.decision;
  }

  // ------------------------------------------------------------------ refinement

  /** From `p`, the calls emit the events and leave the handler at `q`, whatever follows. */
  ghost predicate Produces(p: State, calls: seq<Callback>, events: seq<VisitEvent>, q: State) {
    forall rest: seq<Callback> :: Balanced(q, rest) ==>
      Balanced(p, calls + rest) && Emitted(p, calls + rest) == events + Emitted(q, rest)
  }

  lemma ProducesOne(p: State, cb: Callback)
    requires Accepts(p, cb)
    ensures Produces(p, [cb], [EventOf(p, cb)], Next(p, cb))
  {
    forall rest: seq<Callback> | Balanced(Next(p, cb), rest)
      ensures Balanced(p, [cb] + rest)
      ensures Emitted(p, [cb] + rest) == [EventOf(p, cb)] + Emitted(Next(p, cb), rest)
    {
      assert ([cb] + rest)[1..] == rest;
    }
  }

  lemma ProducesNothing(p: State)
    ensures Produces(p, [], [], p)
  {
    forall rest: seq<Callback> | Balanced(p, rest)
      ensures Balanced(p, [] + rest) && Emitted(p, [] + rest) == [] + Emitted(p, rest)
    {
      assert [] + rest == rest;
    }
  }

  lemma ProducesBoth(p: State, a: seq<Callback>, ea: seq<VisitEvent>, q: State, b: seq<Callback>,
                     eb: seq<VisitEvent>, r: State)
    requires Produces(p, a, ea, q) && Produces(q, b, eb, r)
    ensures Produces(p, a + b, ea + eb, r)
  {
    forall rest: seq<Callback> | Balanced(r, rest)
      ensures Balanced(p, a + b + rest)
      ensures Emitted(p, a + b + rest) == ea + eb + Emitted(r, rest)
    {
      assert a + b + rest == a + (b + rest);
      assert Balanced(q, b + rest);
      assert ea + eb + Emitted(r, rest) == ea + (eb + Emitted(r, rest));
    }
  }

  lemma {:induction false} KeyPartsProduce(p: State, parts: seq<string>)
    requires p.pendingKey == ""
    ensures Produces(p, KeyPartCalls(parts), TextEvents(KeyPart, "", p.depth, parts),
                     p.(pendingKey := Joined(parts)))
  {
    hide Produces;
    if parts == [] {
      ProducesNothing(p);
    } else {
      var init, last := parts[..|parts| - 1], parts[|parts| - 1];
      KeyPartsProduce(p, init);
      var q := p.(pendingKey := Joined(init));
      var cb := OnKeyPart(last, |Joined(parts)|);
      ProducesOne(q, cb);
      ProducesBoth(p, KeyPartCalls(init), TextEvents(KeyPart, "", p.depth, init), q, [cb],
                   [EventOf(q, cb)], Next(q, cb));
    }
  }

  lemma KeyProduces(p: State, t: Text)
    requires p.pendingKey == ""
    ensures Produces(p, KeyCalls(t), KeyEvents(t, p.depth), p.(pendingKey := Whole(t)))
  {
    hide Produces;
    KeyPartsProduce(p, t.parts);
    var q := p.(pendingKey := Joined(t.parts));
    var cb := OnKey(t.last, |Whole(t)|);
    ProducesOne(q, cb);
    ProducesBoth(p, KeyPartCalls(t.parts), TextEvents(KeyPart, "", p.depth, t.parts), q, [cb],
                 [EventOf(q, cb)], Next(q, cb));
  }

  lemma {:induction false} StringPartsProduce(p: State, parts: seq<string>)
    ensures Produces(p, StringPartCalls(parts), TextEvents(StringPart, p.pendingKey, p.depth, parts), p)
  {
    hide Produces;
    if parts == [] {
      ProducesNothing(p);
    } else {
      var init, last := parts[..|parts| - 1], parts[|parts| - 1];
      StringPartsProduce(p, init);
      var cb := OnStringPart(last, |Joined(parts)|);
      ProducesOne(p, cb);
      ProducesBoth(p, StringPartCalls(init), TextEvents(StringPart, p.pendingKey, p.depth, init), p,
                   [cb], [EventOf(p, cb)], p);
    }
  }

  lemma {:induction false} NumberPartsProduce(p: State, parts: seq<string>)
    ensures Produces(p, NumberPartCalls(parts), TextEvents(NumberPart, p.pendingKey, p.depth, parts), p)
  {
    hide Produces;
    if parts == [] {
      ProducesNothing(p);
    } else {
      var init, last := parts[..|parts| - 1], parts[|parts| - 1];
      NumberPartsProduce(p, init);
      var cb := OnNumberPart(last);
      ProducesOne(p, cb);
      ProducesBoth(p, NumberPartCalls(init), TextEvents(NumberPart, p.pendingKey, p.depth, init), p,
                   [cb], [EventOf(p, cb)], p);
    }
  }

  /** The handler has one stacked key per open container. */
  ghost predicate Nested(p: State) {
    p.depth == |p.containerKeys|
  }

  /** A value consumes the pending key, emits exactly its recursive reading and leaves the
    nesting as it was. */
  lemma {:induction false} DocProduces(p: State, d: Doc)
    requires Nested(p)
    ensures Produces(p, Calls(d), DocEvents(d, p.pendingKey, p.depth), p.(pendingKey := ""))
    decreases d, 1
  {
    hide Produces;
    var q := p.(pendingKey := "");
    match d
    case NullDoc => ProducesOne(p, OnNull);
    case BoolDoc(b) => ProducesOne(p, OnBool(b));
    case NumberDoc(parts, number) =>
      NumberPartsProduce(p, parts);
      ProducesOne(p, OnNumber(number));
      ProducesBoth(p, NumberPartCalls(parts), TextEvents(NumberPart, p.pendingKey, p.depth, parts), p,
                   [OnNumber(number)], [NumberEvent(number, p.pendingKey, p.depth)], q);
    case StringDoc(t) =>
      var cb := OnString(t.last, |Whole(t)|);
      StringPartsProduce(p, t.parts);
      ProducesOne(p, cb);
      ProducesBoth(p, StringPartCalls(t.parts), TextEvents(StringPart, p.pendingKey, p.depth, t.parts), p,
                   [cb], [EventOf(p, cb)], q);
    case ArrayDoc(es) =>
      var inside := Next(p, OnArrayBegin);
      ElementsProduce(inside, es);
      ContainerProduces(p, OnArrayBegin, ElementCalls(es), ElementEvents(es, p.depth + 1), OnArrayEnd(|es|));
    case ObjectDoc(ms) =>
      var inside := Next(p, OnObjectBegin);
      MembersProduce(inside, ms);
      ContainerProduces(p, OnObjectBegin, MemberCalls(ms), MemberEvents(ms, p.depth + 1), OnObjectEnd(|ms|));
  }

  /** Begin and End of a container report the key and depth it was opened with. */
  lemma ContainerProduces(p: State, open: Callback, calls: seq<Callback>, events: seq<VisitEvent>,
                          close: Callback)
    requires Nested(p)
    requires (open.OnArrayBegin? && close.OnArrayEnd?) || (open.OnObjectBegin? && close.OnObjectEnd?)
    requires Produces(Next(p, open), calls, events, Next(p, open))
    ensures var (begin, end) :=
        if open.OnArrayBegin? then (ArrayBegin, ArrayEnd) else (ObjectBegin, ObjectEnd);
      Produces(p, [open] + calls + [close],
        [VisitEvent(begin, p.pendingKey, 0, p.depth)] + events
        + [VisitEvent(end, p.pendingKey, close.n, p.depth)], p.(pendingKey := ""))
  {
    hide Produces;
    var inside, after := Next(p, open), p.(pendingKey := "");
    var first, last := EventOf(p, open), EventOf(inside, close);
    assert Next(inside, close) == after;
    ProducesOne(p, open);
    ProducesOne(inside, close);
    hide EventOf, Next, Accepts;
    ProducesBoth(p, [open], [first], inside, calls, events, inside);
    ProducesBoth(p, [open] + calls, [first] + events, inside, [close], [last], after);
  }

  lemma {:induction false} ElementsProduce(p: State, es: seq<Doc>)
    requires Nested(p) && p.pendingKey == ""
    ensures Produces(p, ElementCalls(es), ElementEvents(es, p.depth), p)
    decreases es, 0
  {
    hide Produces;
    if es == [] {
      ProducesNothing(p);
    } else {
      DocProduces(p, es[0]);
      ElementsProduce(p, es[1..]);
      ProducesBoth(p, Calls(es[0]), DocEvents(es[0], "", p.depth), p, ElementCalls(es[1..]),
                   ElementEvents(es[1..], p.depth), p);
    }
  }

  lemma {:induction false} MembersProduce(p: State, ms: seq<Member>)
    requires Nested(p) && p.pendingKey == ""
    ensures Produces(p, MemberCalls(ms), MemberEvents(ms, p.depth), p)
    decreases ms, 0
  {
    hide Produces;
    if ms == [] {
      ProducesNothing(p);
    } else {
      var m := ms[0];
      assert m.value < m;
      var q := p.(pendingKey := Whole(m.key));
      KeyProduces(p, m.key);
      DocProduces(q, m.value);
      MembersProduce(p, ms[1..]);
      ProducesBoth(p, KeyCalls(m.key), KeyEvents(m.key, p.depth), q, Calls(m.value),
                   DocEvents(m.value, Whole(m.key), p.depth), p);
      ProducesBoth(p, KeyCalls(m.key) + Calls(m.value),
                   KeyEvents(m.key, p.depth) + DocEvents(m.value, Whole(m.key), p.depth), p,
                   MemberCalls(ms[1..]), MemberEvents(ms[1..], p.depth), p);
    }
  }

  /** For every document and every way of cutting its texts, the handler emits the document's
    recursive reading, and a check's verdict is the fold of that reading up to its first drop. */
  lemma DocumentVisit<S>(d: Doc, check: Check<S>, s: S)
    ensures Balanced(INITIAL, Calls(d)) && Emitted(INITIAL, Calls(d)) == DocEvents(d, "", 0)
    ensures Folded(check, s, Emitted(INITIAL, Calls(d)), Admit(0.0))
         == Folded(check, s, DocEvents(d, "", 0), Admit(0.0))
  {
    DocProduces(INITIAL, d);
    assert Balanced(INITIAL, []);
    assert Calls(d) + [] == Calls(d);
    assert DocEvents(d, "", 0) + [] == DocEvents(d, "", 0);
  }

  lemma {:induction false} PrefixEmits(p: State, calls: seq<Callback>, k: nat)
    requires Balanced(p, calls) && k <= |calls|
    ensures |Emitted(p, calls)| == |calls|
    ensures Balanced(p, calls[..k]) && Emitted(p, calls[..k]) == Emitted(p, calls)[..k]
    decreases |calls|
  {
    if calls == [] {
    } else if k == 0 {
      PrefixEmits(Next(p, calls[0]), calls[1..], 0);
    } else {
      PrefixEmits(Next(p, calls[0]), calls[1..], k - 1);
      assert calls[..k][1..] == calls[1..][..k - 1];
    }
  }

  /** A parse that fails part way has shown the check a prefix of the document's reading. */
  lemma PartialVisit(d: Doc, k: nat)
    requires k <= |Calls(d)|
    ensures Balanced(INITIAL, Calls(d)[..k]) && k <= |DocEvents(d, "", 0)|
    ensures Emitted(INITIAL, Calls(d)[..k]) == DocEvents(d, "", 0)[..k]
  {
    DocumentVisit(d, (n: nat, e: VisitEvent) => (Admit(0.0), n), 0);
    PrefixEmits(INITIAL, Calls(d), k);
  }
}
