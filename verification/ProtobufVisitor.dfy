/** The protobuf wire-format scanner and its packed-field companions, against encoders. */
module ProtobufVisitor {
  import opened AdmissionTypes
  import opened Varint

  // ------------------------------------------------------------------ the wire format

  datatype Field =
    | VarintField(number: nat, value: nat)
    | Fixed64(number: nat, value: nat)
    | Fixed32(number: nat, value: nat)
    | Len(number: nat, body: seq<byte>)

  ghost predicate ValidField(f: Field) {
    && 8 * f.number + 7 < TWO_TO_64
    && match f
       case VarintField(_, v) => v < TWO_TO_64
       case Fixed64(_, v) => v < TWO_TO_64
       case Fixed32(_, v) => v < 0x1_0000_0000
       case Len(_, body) => |body| < TWO_TO_64
  }

  function WireType(f: Field): nat {
    match f
    case VarintField(_, _) => 0
    case Fixed64(_, _) => 1
    case Len(_, _) => 2
    case Fixed32(_, _) => 5
  }

  function Tag(f: Field): nat { 8 * f.number + WireType(f) }

  function EncodeBody(f: Field): seq<byte> {
    match f
    case VarintField(_, v) => EncodeVarint(v)
    case Fixed64(_, v) => LittleEndian(v, 8)
    case Fixed32(_, v) => LittleEndian(v, 4)
    case Len(_, body) => EncodeVarint(|body|) + body
  }

  function EncodeField(f: Field): seq<byte> {
    EncodeVarint(Tag(f)) + EncodeBody(f)
  }

  function EncodeMessage(fields: seq<Field>): seq<byte> {
    if fields == [] then [] else EncodeField(fields[0]) + EncodeMessage(fields[1..])
  }

  function Scalar(field: nat, value: int): VisitEvent {
    VisitEvent(Int64, fieldNumber := field, value := IntValue(value))
  }

  function BytesEvent(field: nat, body: seq<byte>): VisitEvent {
    VisitEvent(Bytes, fieldNumber := field, value := BytesValue(body))
  }

  /** What the visitor should report of a field. A 32-bit word is reported zero-extended. */
  function FieldEvent(f: Field): VisitEvent {
    match f
    case VarintField(n, v) => Scalar(n, Signed(v, 64))
    case Fixed64(n, v) => Scalar(n, Signed(v, 64))
    case Fixed32(n, v) => Scalar(n, v)
    case Len(n, body) => BytesEvent(n, body)
  }

  function FieldEvents(fields: seq<Field>): seq<VisitEvent> {
    if fields == [] then [] else [FieldEvent(fields[0])] + FieldEvents(fields[1..])
  }

  // ------------------------------------------------------------------ the scan

  /** The events of a byte sequence, and whether it ends on a field boundary. */
  datatype Scan = Scan(events: seq<VisitEvent>, wellFormed: bool)

  /** What is read at a position: nothing valid, or a field and the bytes it takes. */
  datatype Item = Malformed | Skipped(length: nat) | Found(event: VisitEvent, length: nat)

  function ReadFixed(body: seq<byte>, field: nat, size: nat): Item {
    if size > |body| then Malformed
    else Found(Scalar(field, Signed(FromLittleEndian(body[..size]), 64)), size)
  }

  function ReadScalar(body: seq<byte>, field: nat): Item {
    match DecodeVarint(body)
    case Truncated => Malformed
    case Reading(v, n) => Found(Scalar(field, Signed(v % TWO_TO_64, 64)), n)
  }

  function ReadSpan(body: seq<byte>, field: nat): Item {
    match DecodeVarint(body)
    case Truncated => Malformed
    case Reading(l, n) =>
      var len := l % TWO_TO_64;
      if n + len > |body| then Malformed else Found(BytesEvent(field, body[n..n + len]), n + len)
  }

  /** What follows a tag. An unknown wire type takes no bytes and reports nothing. */
  function ReadBody(body: seq<byte>, field: nat, wireType: nat): (r: Item)
    ensures !r.Malformed? ==> r.length <= |body|
  {
    if wireType == 0 then ReadScalar(body, field)
    else if wireType == 1 then ReadFixed(body, field, 8)
    else if wireType == 5 then ReadFixed(body, field, 4)
    else if wireType == 2 then ReadSpan(body, field)
    else Skipped(0)
  }

  function ReadItem(s: seq<byte>): (r: Item)
    requires s != []
    ensures !r.Malformed? ==> 1 <= r.length <= |s|
  {
    match DecodeVarint(s)
    case Truncated => Malformed
    case Reading(t, n) =>
      var tag := t % TWO_TO_64;
      match ReadBody(s[n..], tag / 8, tag % 8)
      case Malformed => Malformed
      case Skipped(m) => Skipped(n + m)
      case Found(event, m) => Found(event, n + m)
  }

  function ScanMessage(s: seq<byte>): Scan
    decreases |s|
  {
    if s == [] then Scan([], true)
    else match ReadItem(s)
      case Malformed => Scan([], false)
      case Skipped(n) => ScanMessage(s[n..])
      case Found(event, n) =>
        var rest := ScanMessage(s[n..]);
        Scan([event] + rest.events, rest.wellFormed)
  }

  /** The decision once a scan ends without a drop by the check. */
  function EndOfScan(scan: Scan, costForInvalid: real): AdmissionDecision {
    if scan.wellFormed then Admit(0.0) else Drop("Invalid protobuf payload", costForInvalid)
  }

  /** Visits a message with a stateful check, stopping at the first drop. */
  method VisitProtobuf<S>(bytes: seq<byte>, check: Check<S>, s0: S, costForInvalid: real)
    returns (decision: AdmissionDecision, s: S)
    ensures (decision, s)
      == Outcome(check, s0, ScanMessage(bytes).events, EndOfScan(ScanMessage(bytes), costForInvalid))
  {
    ghost var end := EndOfScan(ScanMessage(bytes), costForInvalid);
    ghost var result := Outcome(check, s0, ScanMessage(bytes).events, end);
    ghost var rest := bytes;
    var pos := 0;
    s := s0;
    hide Outcome, ScanMessage, ReadItem;
    while pos < |bytes|
      invariant pos <= |bytes| && rest == bytes[pos..]
      invariant EndOfScan(ScanMessage(rest), costForInvalid) == end
      invariant Outcome(check, s, ScanMessage(rest).events, end) == result
      decreases |bytes| - pos
    {
      ScanStep(check, s, rest, end);
      var item, next := VisitField(bytes, pos);
      rest := bytes[next..];
      if item.Malformed? {
        return Drop("Invalid protobuf payload", costForInvalid), s;
      }
      assert rest == bytes[pos..][item.length..];
      pos := next;
      if item.Found? {
        var answer := check(s, item.event);
        decision, s := answer.0, answer.1;
        if decision.Drop? {
          return;
        }
      }
    }
    ScanStep(check, s, rest, end);
    decision := Admit(0.0);
  }

  /** One turn of the scanning loop, seen from the position it starts at. */
  lemma ScanStep<S>(check: Check<S>, s: S, here: seq<byte>, end: AdmissionDecision)
    ensures here == [] ==>
      ScanMessage(here).wellFormed && Outcome(check, s, ScanMessage(here).events, end) == (end, s)
    ensures here != [] && ReadItem(here).Malformed? ==>
      !ScanMessage(here).wellFormed && Outcome(check, s, ScanMessage(here).events, end) == (end, s)
    ensures here != [] && ReadItem(here).Skipped? ==>
      ScanMessage(here) == ScanMessage(here[ReadItem(here).length..])
    ensures here != [] && ReadItem(here).Found? ==>
      var rest := ScanMessage(here[ReadItem(here).length..]);
      var (decision, s') := check(s, ReadItem(here).event);
      && ScanMessage(here).wellFormed == rest.wellFormed
      && Outcome(check, s, ScanMessage(here).events, end)
      == if decision.Drop? then (decision, s') else Outcome(check, s', rest.events, end)
  {
    hide ReadItem;
    OutcomeUnfolds(check, s, ScanMessage(here).events, end);
    if here != [] && ReadItem(here).Found? {
      assert ScanMessage(here).events[1..] == ScanMessage(here[ReadItem(here).length..]).events;
    }
  }

  lemma ScanUnfolds(s: seq<byte>)
    ensures s == [] ==> ScanMessage(s) == Scan([], true)
    ensures s != [] && ReadItem(s).Malformed? ==> ScanMessage(s) == Scan([], false)
    ensures s != [] && ReadItem(s).Skipped? ==> ScanMessage(s) == ScanMessage(s[ReadItem(s).length..])
    ensures s != [] && ReadItem(s).Found? ==>
      var rest := ScanMessage(s[ReadItem(s).length..]);
      ScanMessage(s) == Scan([ReadItem(s).event] + rest.events, rest.wellFormed)
  {
  }

  lemma OutcomeUnfolds<S>(check: Check<S>, s: S, events: seq<VisitEvent>, end: AdmissionDecision)
    ensures events == [] ==> Outcome(check, s, events, end) == (end, s)
    ensures events != [] ==> var (decision, s') := check(s, events[0]);
      Outcome(check, s, events, end)
      == if decision.Drop? then (decision, s') else Outcome(check, s', events[1..], end)
  {
  }

  /** Reads the tag at `pos` and the field after it. */
  method VisitField(bytes: seq<byte>, pos: nat) returns (item: Item, next: nat)
    requires pos < |bytes|
    ensures item == ReadItem(bytes[pos..]) && pos <= next <= |bytes|
    ensures !item.Malformed? ==> next == pos + item.length
  {
    var ok, at, tag := ReadVarint(bytes, pos);
    if !ok {
      return Malformed, at;
    }
    assert bytes[pos..][at - pos..] == bytes[at..];
    hide DecodeVarint, ReadBody;
    item, next := VisitBody(bytes, at, tag / 8, tag % 8);
    match item
    case Malformed =>
    case Skipped(n) => item := Skipped(at - pos + n);
    case Found(event, n) => item := Found(event, at - pos + n);
  }

  /** Reads what follows a tag, by wire type. */
  method VisitBody(bytes: seq<byte>, at: nat, field: nat, wireType: nat) returns (item: Item, next: nat)
    requires at <= |bytes|
    ensures item == ReadBody(bytes[at..], field, wireType) && at <= next <= |bytes|
    ensures !item.Malformed? ==> next == at + item.length
  {
    hide ReadScalar, ReadFixed, ReadSpan;
    if wireType == 0 {
      item, next := VisitScalar(bytes, at, field);
    } else if wireType == 1 {
      item, next := VisitFixed(bytes, at, field, 8);
    } else if wireType == 5 {
      item, next := VisitFixed(bytes, at, field, 4);
    } else if wireType == 2 {
      item, next := VisitSpan(bytes, at, field);
    } else {
      item, next := Skipped(0), at;
    }
  }

  method VisitScalar(bytes: seq<byte>, at: nat, field: nat) returns (item: Item, next: nat)
    requires at <= |bytes|
    ensures item == ReadScalar(bytes[at..], field) && at <= next <= |bytes|
    ensures !item.Malformed? ==> next == at + item.length
  {
    hide Signed, DecodeVarint;
    var ok, end, value := ReadVarint(bytes, at);
    next := end;
    item := if ok then Found(Scalar(field, Signed(value, 64)), next - at) else Malformed;
  }

  method VisitFixed(bytes: seq<byte>, at: nat, field: nat, size: nat) returns (item: Item, next: nat)
    requires at <= |bytes|
    ensures item == ReadFixed(bytes[at..], field, size) && at <= next <= |bytes|
    ensures !item.Malformed? ==> next == at + item.length
  {
    hide Signed, FromLittleEndian;
    if at + size > |bytes| {
      return Malformed, at;
    }
    next := at + size;
    assert bytes[at..][..size] == bytes[at..next];
    item := Found(Scalar(field, Signed(FromLittleEndian(bytes[at..next]), 64)), size);
  }

  method VisitSpan(bytes: seq<byte>, at: nat, field: nat) returns (item: Item, next: nat)
    requires at <= |bytes|
    ensures item == ReadSpan(bytes[at..], field) && at <= next <= |bytes|
    ensures !item.Malformed? ==> next == at + item.length
  {
    hide DecodeVarint;
    var ok, start, len := ReadVarint(bytes, at);
    next := start;
    if !ok || start + len > |bytes| {
      return Malformed, next;
    }
    next := start + len;
    assert bytes[at..][start - at..next - at] == bytes[start..next];
    item := Found(BytesEvent(field, bytes[start..next]), next - at);
  }

  // ------------------------------------------------------------------ round trip

  lemma SmallMod(v: nat)
    requires v < TWO_TO_64
    ensures v % TWO_TO_64 == v
  {
  }

  /** A 32-bit word stays non-negative when read into a 64-bit one. */
  lemma ZeroExtends(v: nat)
    requires v < 0x1_0000_0000
    ensures Signed(v, 64) == v
  {
    Pow2Words();
  }

  /** The scanner reads a field's tag in front of any bytes and goes on with those bytes. */
  lemma TagReadsBack(f: Field, tail: seq<byte>)
    requires ValidField(f)
    ensures EncodeVarint(Tag(f)) + tail != []
    ensures ReadItem(EncodeVarint(Tag(f)) + tail)
      == match ReadBody(tail, f.number, WireType(f))
         case Malformed => Malformed
         case Skipped(m) => Skipped(|EncodeVarint(Tag(f))| + m)
         case Found(event, m) => Found(event, |EncodeVarint(Tag(f))| + m)
  {
    var header := EncodeVarint(Tag(f));
    var s := header + tail;
    VarintRoundTrip(Tag(f), tail);
    TagParts(f);
    assert s[|header|..] == tail;
    ItemUnfolds(s);
  }

  lemma TagParts(f: Field)
    requires ValidField(f)
    ensures Tag(f) % TWO_TO_64 == Tag(f) && Tag(f) / 8 == f.number && Tag(f) % 8 == WireType(f)
  {
    SmallMod(Tag(f));
  }

  lemma ItemUnfolds(s: seq<byte>)
    requires s != [] && DecodeVarint(s).Reading?
    ensures var r := DecodeVarint(s);
      var tag := r.value % TWO_TO_64;
      ReadItem(s) == match ReadBody(s[r.length..], tag / 8, tag % 8)
        case Malformed => Malformed
        case Skipped(m) => Skipped(r.length + m)
        case Found(event, m) => Found(event, r.length + m)
  {
  }

  lemma BodyReadsBack(f: Field, rest: seq<byte>)
    requires ValidField(f)
    ensures ReadBody(EncodeBody(f) + rest, f.number, WireType(f)) == Found(FieldEvent(f), |EncodeBody(f)|)
  {
    var s := EncodeBody(f) + rest;
    Pow2Words();
    hide DecodeVarint, Signed, EncodeVarint, LittleEndian, FromLittleEndian, Pow2;
    match f
    case VarintField(_, v) =>
      VarintRoundTrip(v, rest);
      SmallMod(v);
    case Fixed64(_, v) =>
      assert s[..8] == LittleEndian(v, 8);
      LittleEndianRoundTrip(v, 8);
    case Fixed32(_, v) =>
      assert s[..4] == LittleEndian(v, 4);
      LittleEndianRoundTrip(v, 4);
      ZeroExtends(v);
    case Len(_, body) =>
      var l := EncodeVarint(|body|);
      assert s == l + (body + rest);
      VarintRoundTrip(|body|, body + rest);
      SmallMod(|body|);
      assert s[|l|..|l| + |body|] == body;
  }

  /** The scanner reads back a field in front of anything. */
  lemma FieldReadsBack(f: Field, rest: seq<byte>)
    requires ValidField(f)
    ensures ReadItem(EncodeField(f) + rest) == Found(FieldEvent(f), |EncodeField(f)|)
  {
    hide *;
    var header, body := EncodeVarint(Tag(f)), EncodeBody(f);
    FieldIs(f);
    Reassociate(header, body, rest);
    BodyReadsBack(f, rest);
    TagReadsBack(f, body + rest);
  }

  lemma FieldIs(f: Field)
    ensures EncodeField(f) == EncodeVarint(Tag(f)) + EncodeBody(f)
  {
  }

  lemma Reassociate(a: seq<byte>, b: seq<byte>, c: seq<byte>)
    ensures (a + b) + c == a + (b + c) && |a + b| == |a| + |b|
  {
  }

  lemma EncodeNotEmpty(f: Field)
    ensures |EncodeField(f)| >= 1
  {
  }

  lemma ScanField(f: Field, rest: seq<byte>)
    requires ValidField(f)
    ensures ScanMessage(EncodeField(f) + rest)
         == Scan([FieldEvent(f)] + ScanMessage(rest).events, ScanMessage(rest).wellFormed)
  {
    FieldReadsBack(f, rest);
    EncodeNotEmpty(f);
    ScanUnfolds(EncodeField(f) + rest);
    assert (EncodeField(f) + rest)[|EncodeField(f)|..] == rest;
  }

  ghost predicate ValidFields(fields: seq<Field>) {
    forall k :: 0 <= k < |fields| ==> ValidField(fields[k])
  }

  /** Fields in front of any bytes are reported first, in order, and change nothing after them. */
  lemma {:induction false} ScanFields(fields: seq<Field>, rest: seq<byte>)
    requires ValidFields(fields)
    ensures ScanMessage(EncodeMessage(fields) + rest)
         == Scan(FieldEvents(fields) + ScanMessage(rest).events, ScanMessage(rest).wellFormed)
  {
    hide ScanMessage, ValidField, EncodeField, FieldEvent;
    if fields == [] {
      assert EncodeMessage(fields) + rest == rest;
      assert FieldEvents(fields) + ScanMessage(rest).events == ScanMessage(rest).events;
    } else {
      ScanFields(fields[1..], rest);
      ScanField(fields[0], EncodeMessage(fields[1..]) + rest);
      assert EncodeMessage(fields) + rest
          == EncodeField(fields[0]) + (EncodeMessage(fields[1..]) + rest);
      assert FieldEvents(fields) + ScanMessage(rest).events
          == [FieldEvent(fields[0])] + (FieldEvents(fields[1..]) + ScanMessage(rest).events);
    }
  }

  /** Round trip: visiting an encoded message reports exactly its fields, in order, to any check
    that does not drop, and otherwise stops at the first drop with that decision. */
  lemma MessageRoundTrip<S>(fields: seq<Field>, check: Check<S>, s: S, cost: real)
    requires ValidFields(fields)
    ensures var scan := ScanMessage(EncodeMessage(fields));
      && scan == Scan(FieldEvents(fields), true)
      && Outcome(check, s, scan.events, EndOfScan(scan, cost))
      == Outcome(check, s, FieldEvents(fields), Admit(0.0))
  {
    ScanWhole(fields);
  }

  /** What an event says of its field: the number it was sent under, a varint or a 64-bit word as the
    signed number congruent to it, a 32-bit word as it is, a body as its bytes, and nothing else. */
  predicate Reports(e: VisitEvent, f: Field) {
    && e.fieldNumber == f.number && e.key == "" && e.size == 0 && e.depth == 0
    && match f
       case VarintField(_, v) => ReportsWord(e, v)
       case Fixed64(_, v) => ReportsWord(e, v)
       case Fixed32(_, v) => e.kind == Int64 && e.value == IntValue(v)
       case Len(_, body) => e.kind == Bytes && e.value == BytesValue(body)
  }

  predicate ReportsWord(e: VisitEvent, v: nat) {
    && e.kind == Int64 && e.value.IntValue?
    && 0 <= e.value.i + 0x8000_0000_0000_0000 < TWO_TO_64
    && (v - e.value.i) % TWO_TO_64 == 0
  }

  lemma FieldReported(f: Field)
    requires ValidField(f)
    ensures Reports(FieldEvent(f), f)
  {
    Pow2Words();
    hide Pow2, Signed;
    match f
    case VarintField(_, v) => TwosComplement(v, 64);
    case Fixed64(_, v) => TwosComplement(v, 64);
    case _ =>
  }

  lemma {:induction false} EventsInOrder(fields: seq<Field>)
    ensures |FieldEvents(fields)| == |fields|
    ensures forall i :: 0 <= i < |fields| ==> FieldEvents(fields)[i] == FieldEvent(fields[i])
  {
    hide FieldEvent;
    if fields != [] {
      EventsInOrder(fields[1..]);
    }
  }

  /** Visiting an encoded message reports as many events as it has fields, each with its field's own
    number and meaning. */
  lemma MessageReported(fields: seq<Field>)
    requires ValidFields(fields)
    ensures var scan := ScanMessage(EncodeMessage(fields));
      && scan.wellFormed && |scan.events| == |fields|
      && forall i :: 0 <= i < |fields| ==> Reports(scan.events[i], fields[i])
  {
    ScanWhole(fields);
    EventsInOrder(fields);
    hide Reports, FieldEvent, ValidField;
    forall i | 0 <= i < |fields| ensures Reports(FieldEvents(fields)[i], fields[i]) {
      FieldReported(fields[i]);
    }
  }

  /** Signed numbers of `width` bytes as they are sent. */
  function Words(xs: seq<int>, width: nat): (words: seq<nat>)
    requires width >= 1 && forall x <- xs :: FitsSigned(x, 8 * width)
    ensures |words| == |xs|
    ensures forall i :: 0 <= i < |xs| ==> words[i] == Word(xs[i], 8 * width) < Pow2(8 * width)
  {
    seq(|xs|, i requires 0 <= i < |xs| => Word(xs[i], 8 * width))
  }

  predicate ReportsNumbers(events: seq<VisitEvent>, field: nat, xs: seq<int>) {
    && |events| == |xs|
    && forall i :: 0 <= i < |xs| ==>
         && events[i].kind == Int64 && events[i].fieldNumber == field && events[i].value == IntValue(xs[i])
         && events[i].key == "" && events[i].size == 0 && events[i].depth == 0
  }

  // ------------------------------------------------------------------ truncation

  lemma CutBody(f: Field, k: nat)
    requires ValidField(f) && k < |EncodeBody(f)|
    ensures ReadBody(EncodeBody(f)[..k], f.number, WireType(f)) == Malformed
  {
    hide EncodeVarint, LittleEndian, FromLittleEndian, Signed;
    match f
    case VarintField(_, v) => VarintPrefix(v, k);
    case Fixed64(_, v) =>
    case Fixed32(_, v) =>
    case Len(_, content) =>
      var l := EncodeVarint(|content|);
      if k < |l| {
        assert EncodeBody(f)[..k] == l[..k];
        VarintPrefix(|content|, k);
      } else {
        assert EncodeBody(f)[..k] == l + content[..k - |l|];
        VarintRoundTrip(|content|, content[..k - |l|]);
        SmallMod(|content|);
      }
  }

  /** A field cut short anywhere is malformed. */
  lemma CutField(f: Field, k: nat)
    requires ValidField(f) && 0 < k < |EncodeField(f)|
    ensures ReadItem(EncodeField(f)[..k]) == Malformed
  {
    hide *;
    var header, body := EncodeVarint(Tag(f)), EncodeBody(f);
    FieldIs(f);
    CutPair(header, body, k);
    if k < |header| {
      VarintPrefix(Tag(f), k);
      CutTag(header[..k]);
    } else {
      TagReadsBack(f, body[..k - |header|]);
      CutBody(f, k - |header|);
    }
  }

  lemma CutPair(a: seq<byte>, b: seq<byte>, k: nat)
    requires k <= |a| + |b|
    ensures (a + b)[..k] == if k < |a| then a[..k] else a + b[..k - |a|]
  {
  }

  lemma CutTag(s: seq<byte>)
    ensures s != [] && DecodeVarint(s) == Truncated ==> ReadItem(s) == Malformed
  {
  }

  lemma {:induction false} EncodeConcat(a: seq<Field>, b: seq<Field>)
    ensures EncodeMessage(a + b) == EncodeMessage(a) + EncodeMessage(b)
  {
    if a == [] {
      assert a + b == b;
    } else {
      assert (a + b)[1..] == a[1..] + b;
      EncodeConcat(a[1..], b);
    }
  }

  lemma EncodeOne(f: Field)
    ensures EncodeMessage([f]) == EncodeField(f)
  {
    assert [f][1..] == [];
  }

  /** Where a field lies in an encoded message. */
  lemma Layout(before: seq<Field>, f: Field, after: seq<Field>)
    ensures EncodeMessage(before + [f]) == EncodeMessage(before) + EncodeField(f)
    ensures EncodeMessage(before + [f] + after)
         == EncodeMessage(before) + EncodeField(f) + EncodeMessage(after)
  {
    EncodeConcat(before, [f]);
    EncodeOne(f);
    EncodeConcat(before + [f], after);
  }

  lemma CutConcat(a: seq<byte>, b: seq<byte>, c: seq<byte>, k: nat)
    requires |a| <= k <= |a| + |b|
    ensures (a + b + c)[..k] == a + b[..k - |a|]
  {
  }

  lemma ScanWhole(fields: seq<Field>)
    requires ValidFields(fields)
    ensures ScanMessage(EncodeMessage(fields)) == Scan(FieldEvents(fields), true)
  {
    ScanFields(fields, []);
    assert EncodeMessage(fields) + [] == EncodeMessage(fields);
    ScanUnfolds([]);
    assert FieldEvents(fields) + [] == FieldEvents(fields);
  }

  lemma ScanCut(fields: seq<Field>, f: Field, k: nat)
    requires ValidFields(fields) && ValidField(f) && 0 < k < |EncodeField(f)|
    ensures ScanMessage(EncodeMessage(fields) + EncodeField(f)[..k]) == Scan(FieldEvents(fields), false)
  {
    ScanFields(fields, EncodeField(f)[..k]);
    CutField(f, k);
    ScanUnfolds(EncodeField(f)[..k]);
    assert FieldEvents(fields) + [] == FieldEvents(fields);
  }

  /** How many fields lie wholly inside the first `k` bytes of a message. */
  function WholeFields(fields: seq<Field>, k: nat): (n: nat)
    ensures n <= |fields| && |EncodeMessage(fields[..n])| <= k
    ensures n < |fields| ==> k < |EncodeMessage(fields[..n + 1])|
  {
    if fields == [] then 0
    else if k < |EncodeField(fields[0])| then
      EncodeOne(fields[0]);
      assert fields[..1] == [fields[0]];
      0
    else
      var n := 1 + WholeFields(fields[1..], k - |EncodeField(fields[0])|);
      assert fields[..n][1..] == fields[1..][..n - 1];
      assert n < |fields| ==> fields[..n + 1][1..] == fields[1..][..n];
      n
  }

  /** Truncation: the first `k` bytes of a message are reported as the fields wholly inside them, and
    are well formed exactly when they end on a field boundary. */
  lemma TruncatedMessage(fields: seq<Field>, k: nat)
    requires ValidFields(fields) && k <= |EncodeMessage(fields)|
    ensures var n := WholeFields(fields, k);
      ScanMessage(EncodeMessage(fields)[..k]) == Scan(FieldEvents(fields[..n]), k == |EncodeMessage(fields[..n])|)
  {
    hide ScanMessage, ValidField, EncodeField, FieldEvent, EncodeMessage, FieldEvents, WholeFields;
    var n := WholeFields(fields, k);
    if n == |fields| {
      assert fields[..n] == fields;
      ScanWhole(fields);
      assert EncodeMessage(fields)[..k] == EncodeMessage(fields);
    } else {
      var before, f, after := fields[..n], fields[n], fields[n + 1..];
      assert fields[..n + 1] == before + [f];
      assert fields == before + [f] + after;
      TruncatedAt(before, f, after, k);
    }
  }

  ghost predicate AlwaysAdmits<S(!new)>(check: Check<S>) {
    forall s: S, event: VisitEvent :: check(s, event).0.Admit?
  }

  lemma {:induction false} NothingDropped<S(!new)>(check: Check<S>, s: S, events: seq<VisitEvent>,
                                                   end: AdmissionDecision)
    requires AlwaysAdmits(check)
    ensures Outcome(check, s, events, end).0 == end && Delivered(check, s, events) == events
  {
    if events != [] {
      NothingDropped(check, check(s, events[0]).1, events[1..], end);
    }
  }

  /** What visiting a truncated message decides: a check sees the whole fields in order, and one that
    drops nothing gets an admission when the cut is on a field boundary and the invalid-payload drop
    with the configured cost otherwise. */
  lemma TruncatedVisit<S(!new)>(fields: seq<Field>, k: nat, check: Check<S>, s: S, cost: real)
    requires ValidFields(fields) && k <= |EncodeMessage(fields)|
    ensures var n := WholeFields(fields, k);
      var scan := ScanMessage(EncodeMessage(fields)[..k]);
      var outcome := Outcome(check, s, scan.events, EndOfScan(scan, cost));
      var end := if k == |EncodeMessage(fields[..n])| then Admit(0.0) else Drop("Invalid protobuf payload", cost);
      && outcome == Outcome(check, s, FieldEvents(fields[..n]), end)
      && (AlwaysAdmits(check) ==>
            outcome.0 == end && Delivered(check, s, scan.events) == FieldEvents(fields[..n]))
  {
    hide ScanMessage, EncodeMessage, FieldEvents, WholeFields, ValidFields, Outcome, Delivered;
    TruncatedMessage(fields, k);
    if AlwaysAdmits(check) {
      var scan := ScanMessage(EncodeMessage(fields)[..k]);
      NothingDropped(check, s, scan.events, EndOfScan(scan, cost));
    }
  }

  lemma TruncatedAt(before: seq<Field>, f: Field, after: seq<Field>, k: nat)
    requires ValidFields(before) && ValidField(f)
    requires |EncodeMessage(before)| <= k < |EncodeMessage(before + [f])|
    ensures k <= |EncodeMessage(before + [f] + after)|
    ensures ScanMessage(EncodeMessage(before + [f] + after)[..k])
         == Scan(FieldEvents(before), k == |EncodeMessage(before)|)
  {
    hide ScanMessage, ValidField, EncodeField, FieldEvent, EncodeMessage, FieldEvents;
    var whole := EncodeMessage(before);
    Layout(before, f, after);
    CutConcat(whole, EncodeField(f), EncodeMessage(after), k);
    if k == |whole| {
      ScanWhole(before);
      assert whole + EncodeField(f)[..0] == whole;
    } else {
      ScanCut(before, f, k - |whole|);
    }
  }

  // ------------------------------------------------------------------ packed fields

  function EncodePacked(values: seq<nat>): seq<byte> {
    if values == [] then [] else EncodeVarint(values[0]) + EncodePacked(values[1..])
  }

  function ScanPacked(s: seq<byte>, field: nat): Scan
    decreases |s|
  {
    if s == [] then Scan([], true)
    else match DecodeVarint(s)
      case Truncated => Scan([], false)
      case Reading(v, n) =>
        var rest := ScanPacked(s[n..], field);
        Scan([Scalar(field, Signed(v % TWO_TO_64, 64))] + rest.events, rest.wellFormed)
  }

  method VisitPackedVarint<S>(body: seq<byte>, field: nat, check: Check<S>, s0: S, costForInvalid: real)
    returns (decision: AdmissionDecision, s: S)
    ensures (decision, s)
      == Outcome(check, s0, ScanPacked(body, field).events,
                 EndOfScan(ScanPacked(body, field), costForInvalid))
  {
    ghost var end := EndOfScan(ScanPacked(body, field), costForInvalid);
    ghost var result := Outcome(check, s0, ScanPacked(body, field).events, end);
    ghost var rest := body;
    var pos := 0;
    s := s0;
    hide Signed, Outcome, ScanPacked, DecodeVarint;
    while pos < |body|
      invariant pos <= |body| && rest == body[pos..]
      invariant EndOfScan(ScanPacked(rest, field), costForInvalid) == end
      invariant Outcome(check, s, ScanPacked(rest, field).events, end) == result
      decreases |body| - pos
    {
      PackedStep(check, s, rest, field, end);
      var ok, next, varint := ReadVarint(body, pos);
      if !ok {
        return Drop("Invalid protobuf payload", costForInvalid), s;
      }
      assert rest[next - pos..] == body[next..];
      pos, rest := next, body[next..];
      var answer := check(s, Scalar(field, Signed(varint, 64)));
      decision, s := answer.0, answer.1;
      if decision.Drop? {
        return;
      }
    }
    PackedStep(check, s, rest, field, end);
    decision := Admit(0.0);
  }

  /** One turn of the packed loop, seen from the position it starts at. */
  lemma PackedStep<S>(check: Check<S>, s: S, here: seq<byte>, field: nat, end: AdmissionDecision)
    ensures here == [] ==>
      ScanPacked(here, field).wellFormed && Outcome(check, s, ScanPacked(here, field).events, end) == (end, s)
    ensures here != [] && DecodeVarint(here).Truncated? ==>
      !ScanPacked(here, field).wellFormed && Outcome(check, s, ScanPacked(here, field).events, end) == (end, s)
    ensures here != [] && DecodeVarint(here).Reading? ==>
      var r := DecodeVarint(here);
      var rest := ScanPacked(here[r.length..], field);
      var (decision, s') := check(s, Scalar(field, Signed(r.value % TWO_TO_64, 64)));
      && ScanPacked(here, field).wellFormed == rest.wellFormed
      && Outcome(check, s, ScanPacked(here, field).events, end)
      == if decision.Drop? then (decision, s') else Outcome(check, s', rest.events, end)
  {
    hide DecodeVarint, Signed;
    OutcomeUnfolds(check, s, ScanPacked(here, field).events, end);
    if here != [] && DecodeVarint(here).Reading? {
      assert ScanPacked(here, field).events[1..] == ScanPacked(here[DecodeVarint(here).length..], field).events;
    }
  }

  function Unpacked(field: nat, values: seq<nat>): seq<Field> {
    if values == [] then [] else [VarintField(field, values[0])] + Unpacked(field, values[1..])
  }

  lemma {:induction false} PackedScan(field: nat, values: seq<nat>)
    requires forall k :: 0 <= k < |values| ==> values[k] < TWO_TO_64
    ensures ScanPacked(EncodePacked(values), field) == Scan(FieldEvents(Unpacked(field, values)), true)
  {
    if values != [] {
      PackedScan(field, values[1..]);
      VarintRoundTrip(values[0], EncodePacked(values[1..]));
      SmallMod(values[0]);
      hide EncodeVarint, DecodeVarint, Signed;
      assert EncodePacked(values)[|EncodeVarint(values[0])|..] == EncodePacked(values[1..]);
      assert Unpacked(field, values)[1..] == Unpacked(field, values[1..]);
    }
  }

  lemma {:induction false} UnpackedValid(field: nat, values: seq<nat>)
    requires 8 * field + 7 < TWO_TO_64
    requires forall k :: 0 <= k < |values| ==> values[k] < TWO_TO_64
    ensures ValidFields(Unpacked(field, values))
  {
    if values != [] {
      UnpackedValid(field, values[1..]);
    }
  }

  /** A packed varint field gives any check the same stream and decision as the unpacked
    repeated field. */
  lemma PackedEqualsUnpacked<S>(field: nat, values: seq<nat>, check: Check<S>, s: S, cost: real)
    requires 8 * field + 7 < TWO_TO_64
    requires forall k :: 0 <= k < |values| ==> values[k] < TWO_TO_64
    ensures var packed := ScanPacked(EncodePacked(values), field);
      var unpacked := ScanMessage(EncodeMessage(Unpacked(field, values)));
      && packed == unpacked
      && Outcome(check, s, packed.events, EndOfScan(packed, cost))
      == Outcome(check, s, unpacked.events, EndOfScan(unpacked, cost))
  {
    PackedScan(field, values);
    UnpackedValid(field, values);
    MessageRoundTrip(Unpacked(field, values), check, s, cost);
  }

  // ------------------------------------------------------------------ packed fixed-width fields

  function EncodePackedFixed(values: seq<nat>, width: nat): seq<byte> {
    if values == [] then [] else LittleEndian(values[0], width) + EncodePackedFixed(values[1..], width)
  }

  /** Whole elements only: bytes too few for another element are ignored. Each is read with the
    element's own signedness. */
  function ScanFixed(s: seq<byte>, field: nat, width: nat): seq<VisitEvent>
    requires width >= 1
    decreases |s|
  {
    if |s| < width then []
    else
      [Scalar(field, Signed(FromLittleEndian(s[..width]), 8 * width))] + ScanFixed(s[width..], field, width)
  }

  /** `width` is the size of the schema's element type. */
  method VisitPackedFixed<S>(body: seq<byte>, field: nat, width: nat, check: Check<S>, s0: S)
    returns (decision: AdmissionDecision, s: S)
    requires width == 4 || width == 8
    ensures (decision, s) == Outcome(check, s0, ScanFixed(body, field, width), Admit(0.0))
  {
    var pos := 0;
    s := s0;
    assert body[0..] == body;
    hide Signed, Outcome, FromLittleEndian;
    while pos + width <= |body|
      invariant pos <= |body|
      invariant Outcome(check, s0, ScanFixed(body, field, width), Admit(0.0))
             == Outcome(check, s, ScanFixed(body[pos..], field, width), Admit(0.0))
      decreases |body| - pos
    {
      ghost var here := body[pos..];
      OutcomeUnfolds(check, s, ScanFixed(here, field, width), Admit(0.0));
      assert here[..width] == body[pos..pos + width] && here[width..] == body[pos + width..];
      assert ScanFixed(here, field, width)[1..] == ScanFixed(here[width..], field, width);
      var element := FromLittleEndian(body[pos..pos + width]);
      var answer := check(s, Scalar(field, Signed(element, 8 * width)));
      decision, s := answer.0, answer.1;
      if decision.Drop? {
        return;
      }
      pos := pos + width;
    }
    OutcomeUnfolds(check, s, ScanFixed(body[pos..], field, width), Admit(0.0));
    decision := Admit(0.0);
  }

  function UnpackedFixed(field: nat, values: seq<nat>, width: nat): seq<Field> {
    if values == [] then []
    else
      var first := if width == 8 then Fixed64(field, values[0]) else Fixed32(field, values[0]);
      [first] + UnpackedFixed(field, values[1..], width)
  }

  ghost predicate Elements(values: seq<nat>, width: nat) {
    forall k :: 0 <= k < |values| ==> values[k] < Pow2(8 * width)
  }

  /** The events of a packed fixed-width field, element by element. */
  function FixedEvents(field: nat, values: seq<nat>, width: nat): seq<VisitEvent>
    requires width >= 1
  {
    if values == [] then []
    else [Scalar(field, Signed(values[0], 8 * width))] + FixedEvents(field, values[1..], width)
  }

  /** Packed fixed-width elements are reported in order; trailing bytes are ignored. */
  lemma {:induction false} FixedScan(field: nat, values: seq<nat>, width: nat, trailing: seq<byte>)
    requires width >= 1 && Elements(values, width) && |trailing| < width
    ensures ScanFixed(EncodePackedFixed(values, width) + trailing, field, width)
         == FixedEvents(field, values, width)
  {
    hide Signed, FromLittleEndian, LittleEndian, Pow2;
    if values == [] {
      assert EncodePackedFixed(values, width) + trailing == trailing;
    } else {
      FixedScan(field, values[1..], width, trailing);
      LittleEndianRoundTrip(values[0], width);
      var s := EncodePackedFixed(values, width) + trailing;
      assert s[..width] == LittleEndian(values[0], width);
      assert s[width..] == EncodePackedFixed(values[1..], width) + trailing;
    }
  }

  /** The unpacked repeated field with the same elements is a valid message. */
  lemma {:induction false} UnpackedFixedValid(field: nat, values: seq<nat>, width: nat)
    requires 8 * field + 7 < TWO_TO_64 && (width == 4 || width == 8) && Elements(values, width)
    ensures ValidFields(UnpackedFixed(field, values, width))
  {
    if values != [] {
      UnpackedFixedValid(field, values[1..], width);
      Pow2Words();
      hide Pow2;
    }
  }

  lemma {:induction false} Fixed64Agrees(field: nat, values: seq<nat>)
    ensures FixedEvents(field, values, 8) == FieldEvents(UnpackedFixed(field, values, 8))
  {
    if values != [] {
      Fixed64Agrees(field, values[1..]);
      assert UnpackedFixed(field, values, 8)[1..] == UnpackedFixed(field, values[1..], 8);
    }
  }

  lemma SignBit(v: nat)
    requires v < 0x1_0000_0000
    ensures Signed(v, 32) == v <==> v < 0x8000_0000
  {
    Pow2Words();
  }

  lemma DeliveredUnfolds<S>(check: Check<S>, s: S, events: seq<VisitEvent>)
    requires events != []
    ensures var (decision, s') := check(s, events[0]);
      Delivered(check, s, events)
      == [events[0]] + if decision.Drop? then [] else Delivered(check, s', events[1..])
  {
  }

  lemma {:induction false} Fixed32AgreesIff<S>(field: nat, values: seq<nat>, check: Check<S>, s: S)
    requires Elements(values, 4)
    ensures |Delivered(check, s, FieldEvents(UnpackedFixed(field, values, 4)))| <= |values|
    ensures Delivered(check, s, FixedEvents(field, values, 4))
         == Delivered(check, s, FieldEvents(UnpackedFixed(field, values, 4)))
      <==> forall k :: 0 <= k < |Delivered(check, s, FieldEvents(UnpackedFixed(field, values, 4)))|
             ==> values[k] < 0x8000_0000
  {
    if values != [] {
      var packed, unpacked := FixedEvents(field, values, 4), FieldEvents(UnpackedFixed(field, values, 4));
      var rest := values[1..];
      FirstOf32(field, values);
      DeliveredUnfolds(check, s, packed);
      DeliveredUnfolds(check, s, unpacked);
      var (decision, s') := check(s, unpacked[0]);
      hide Signed, Pow2, FixedEvents, FieldEvents, UnpackedFixed, Delivered;
      assert Delivered(check, s, packed)[0] == packed[0];
      assert Delivered(check, s, unpacked)[0] == unpacked[0];
      if !decision.Drop? {
        Fixed32AgreesIff(field, rest, check, s');
        var du := Delivered(check, s', FieldEvents(UnpackedFixed(field, rest, 4)));
        assert (forall k :: 0 <= k < |du| ==> rest[k] < 0x8000_0000)
          <==> forall k :: 1 <= k < |du| + 1 ==> values[k] < 0x8000_0000 by {
          assert forall k :: 0 <= k < |du| ==> rest[k] == values[k + 1];
          assert forall k :: 1 <= k < |du| + 1 ==> values[k] == rest[k - 1];
        }
        if values[0] < 0x8000_0000 {
          ConsEqual(packed[0], Delivered(check, s', FixedEvents(field, rest, 4)), du);
        }
      }
    }
  }

  lemma ConsEqual(x: VisitEvent, a: seq<VisitEvent>, b: seq<VisitEvent>)
    ensures [x] + a == [x] + b <==> a == b
  {
    assert ([x] + a)[1..] == a && ([x] + b)[1..] == b;
  }

  lemma FirstOf32(field: nat, values: seq<nat>)
    requires values != [] && Elements(values, 4)
    ensures Elements(values[1..], 4)
    ensures var packed, unpacked := FixedEvents(field, values, 4), FieldEvents(UnpackedFixed(field, values, 4));
      && packed != [] && unpacked != []
      && packed[1..] == FixedEvents(field, values[1..], 4)
      && unpacked[1..] == FieldEvents(UnpackedFixed(field, values[1..], 4))
      && (packed[0] == unpacked[0] <==> values[0] < 0x8000_0000)
  {
    Pow2Words();
    SignBit(values[0]);
    assert UnpackedFixed(field, values, 4)[1..] == UnpackedFixed(field, values[1..], 4);
  }

  /** A packed 64-bit field gives the events of the unpacked repeated field. */
  lemma PackedFixed64EqualsUnpacked(field: nat, values: seq<nat>, trailing: seq<byte>)
    requires 8 * field + 7 < TWO_TO_64 && Elements(values, 8) && |trailing| < 8
    ensures Scan(ScanFixed(EncodePackedFixed(values, 8) + trailing, field, 8), true)
         == ScanMessage(EncodeMessage(UnpackedFixed(field, values, 8)))
  {
    FixedScan(field, values, 8, trailing);
    Fixed64Agrees(field, values);
    UnpackedFixedValid(field, values, 8);
    ScanWhole(UnpackedFixed(field, values, 8));
  }

  /** A packed 32-bit field looks like the unpacked one to a check exactly when no element that
    reaches the check has its sign bit set: one visitor sign-extends, the other does not. When
    it looks alike it is decided alike. */
  lemma PackedFixed32EqualsUnpackedIff<S>(field: nat, values: seq<nat>, trailing: seq<byte>,
                                          check: Check<S>, s: S, end: AdmissionDecision)
    requires 8 * field + 7 < TWO_TO_64 && Elements(values, 4) && |trailing| < 4
    ensures var packed := ScanFixed(EncodePackedFixed(values, 4) + trailing, field, 4);
      var unpacked := ScanMessage(EncodeMessage(UnpackedFixed(field, values, 4)));
      var seen := Delivered(check, s, unpacked.events);
      && unpacked.wellFormed && |seen| <= |values|
      && (Delivered(check, s, packed) == seen
          <==> forall k :: 0 <= k < |seen| ==> values[k] < 0x8000_0000)
      && (Delivered(check, s, packed) == seen ==>
            Outcome(check, s, packed, end) == Outcome(check, s, unpacked.events, end))
  {
    FixedScan(field, values, 4, trailing);
    UnpackedFixedValid(field, values, 4);
    ScanWhole(UnpackedFixed(field, values, 4));
    Fixed32AgreesIff(field, values, check, s);
    hide Outcome, ScanFixed, ScanMessage, FixedEvents, FieldEvents, UnpackedFixed;
    OutcomeOfDelivered(check, s, FixedEvents(field, values, 4), end);
    OutcomeOfDelivered(check, s, FieldEvents(UnpackedFixed(field, values, 4)), end);
  }

  // ------------------------------------------------------------------ signed numbers

  /** An int64, sent as a varint or as a fixed word, is reported as that number. */
  lemma SignedFieldReadsBack(field: nat, x: int, rest: seq<byte>)
    requires 8 * field + 7 < TWO_TO_64 && FitsSigned(x, 64)
    ensures var f := VarintField(field, Word(x, 64));
      ReadItem(EncodeField(f) + rest).Found? && ReportsNumbers([ReadItem(EncodeField(f) + rest).event], field, [x])
    ensures var f := Fixed64(field, Word(x, 64));
      ReadItem(EncodeField(f) + rest).Found? && ReportsNumbers([ReadItem(EncodeField(f) + rest).event], field, [x])
  {
    WordIsSent(field, x);
    hide ReadItem, EncodeField, FieldEvent, ValidField, Word, FitsSigned;
    FieldReadsBack(VarintField(field, Word(x, 64)), rest);
    FieldReadsBack(Fixed64(field, Word(x, 64)), rest);
  }

  lemma WordIsSent(field: nat, x: int)
    requires 8 * field + 7 < TWO_TO_64 && FitsSigned(x, 64)
    ensures ValidField(VarintField(field, Word(x, 64))) && ValidField(Fixed64(field, Word(x, 64)))
    ensures FieldEvent(VarintField(field, Word(x, 64))) == VisitEvent(Int64, fieldNumber := field, value := IntValue(x))
    ensures FieldEvent(Fixed64(field, Word(x, 64))) == VisitEvent(Int64, fieldNumber := field, value := IntValue(x))
  {
    Pow2Words();
    SignedReadsBack(x, 64);
    hide Pow2, Signed;
  }

  lemma {:induction false} FixedEventsInOrder(field: nat, values: seq<nat>, width: nat)
    requires width >= 1
    ensures |FixedEvents(field, values, width)| == |values|
    ensures forall i :: 0 <= i < |values| ==>
      FixedEvents(field, values, width)[i] == Scalar(field, Signed(values[i], 8 * width))
  {
    hide Signed, Scalar;
    if values != [] {
      FixedEventsInOrder(field, values[1..], width);
    }
  }

  /** Packed int32s and int64s of fixed width are reported in order, as the numbers they are. */
  lemma SignedFixedReadsBack(field: nat, xs: seq<int>, width: nat, trailing: seq<byte>)
    requires width >= 1 && (forall x <- xs :: FitsSigned(x, 8 * width)) && |trailing| < width
    ensures ReportsNumbers(ScanFixed(EncodePackedFixed(Words(xs, width), width) + trailing, field, width), field, xs)
  {
    var words := Words(xs, width);
    FixedScan(field, words, width, trailing);
    FixedEventsInOrder(field, words, width);
    hide Pow2, Signed, ScanFixed, EncodePackedFixed, FixedEvents, Word;
    forall i | 0 <= i < |xs| ensures Signed(words[i], 8 * width) == xs[i] {
      SignedReadsBack(xs[i], 8 * width);
    }
  }

  lemma {:induction false} VarintsInOrder(field: nat, values: seq<nat>)
    ensures |Unpacked(field, values)| == |values|
    ensures forall i :: 0 <= i < |values| ==> Unpacked(field, values)[i] == VarintField(field, values[i])
  {
    if values != [] {
      VarintsInOrder(field, values[1..]);
    }
  }

  /** So are packed varints. */
  lemma SignedPackedReadsBack(field: nat, xs: seq<int>)
    requires forall x <- xs :: FitsSigned(x, 64)
    ensures var scan := ScanPacked(EncodePacked(Words(xs, 8)), field);
      scan.wellFormed && ReportsNumbers(scan.events, field, xs)
  {
    var words := Words(xs, 8);
    Pow2Words();
    hide *;
    PackedScan(field, words);
    VarintsInOrder(field, words);
    EventsInOrder(Unpacked(field, words));
    forall i | 0 <= i < |xs|
      ensures FieldEvent(VarintField(field, words[i])) == Scalar(field, xs[i])
    {
      SignedReadsBack(xs[i], 64);
      ScalarOf(field, words[i]);
    }
    ScalarsReport(ScanPacked(EncodePacked(words), field).events, field, xs);
  }

  lemma ScalarOf(field: nat, v: nat)
    ensures FieldEvent(VarintField(field, v)) == Scalar(field, Signed(v, 64))
  {
  }

  lemma ScalarsReport(events: seq<VisitEvent>, field: nat, xs: seq<int>)
    requires |events| == |xs| && forall i :: 0 <= i < |xs| ==> events[i] == Scalar(field, xs[i])
    ensures ReportsNumbers(events, field, xs)
  {
  }
}
