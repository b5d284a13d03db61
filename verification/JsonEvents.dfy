/** What the events of a document say about its values, field by field: each value is reported under
  its own name and at its own depth, each key as it is written, and the Begin and End of a container
  agree. */
module JsonEvents {
  import opened AdmissionTypes
  import opened JsonVisitor
  import opened Wrappers

  // ------------------------------------------------------------------ what is reported

  predicate Carries(e: VisitEvent, kind: EventKind, key: string, depth: nat) {
    e.kind == kind && e.key == key && e.depth == depth && e.fieldNumber == NO_FIELD
  }

  /** Piece `k` of a text, with the length so far where lengths are reported. */
  predicate ReportsPiece(e: VisitEvent, kind: EventKind, key: string, depth: nat, parts: seq<string>, k: nat)
    requires k < |parts|
  {
    && Carries(e, kind, key, depth)
    && e.value == TextValue(parts[k])
    && e.size == if kind == NumberPart then 0 else |Joined(parts[..k + 1])|
  }

  predicate ReportsPieces(own: seq<VisitEvent>, kind: EventKind, key: string, depth: nat, parts: seq<string>) {
    |own| == |parts| && forall k :: 0 <= k < |parts| ==> ReportsPiece(own[k], kind, key, depth, parts, k)
  }

  predicate ReportsNumber(e: VisitEvent, number: Number, key: string, depth: nat) {
    match number
    case IntNumber(i) => Carries(e, Int64, key, depth) && e.value == IntValue(i)
    case UintNumber(u) => Carries(e, Uint64, key, depth) && e.value == UintValue(u)
    case DoubleNumber(d) => Carries(e, Double, key, depth) && e.value == DoubleValue(d)
  }

  predicate ReportsText(own: seq<VisitEvent>, part: EventKind, kind: EventKind, key: string, depth: nat, t: Text) {
    && |own| == |t.parts| + 1
    && ReportsPieces(own[..|t.parts|], part, key, depth, t.parts)
    && var last := own[|t.parts|];
       Carries(last, kind, key, depth) && last.value == TextValue(t.last) && last.size == |Whole(t)|
  }

  /** A container: Begin and End under one name and depth, everything between them deeper. */
  predicate ReportsContainer(own: seq<VisitEvent>, begin: EventKind, end: EventKind, key: string, depth: nat, n: nat) {
    && |own| >= 2
    && Carries(own[0], begin, key, depth)
    && Carries(own[|own| - 1], end, key, depth)
    && own[|own| - 1].size == n
    && forall k :: 0 < k < |own| - 1 ==> own[k].depth > depth
  }

  /** `own` are the events of the value `v`, which is named `key` and lies inside `depth` containers. */
  predicate Reports(own: seq<VisitEvent>, v: Doc, key: string, depth: nat) {
    match v
    case NullDoc => |own| == 1 && Carries(own[0], Null, key, depth) && own[0].value == NoValue
    case BoolDoc(b) => |own| == 1 && Carries(own[0], Bool, key, depth) && own[0].value == BoolValue(b)
    case NumberDoc(parts, number) =>
      && |own| == |parts| + 1
      && ReportsPieces(own[..|parts|], NumberPart, key, depth, parts)
      && ReportsNumber(own[|parts|], number, key, depth)
    case StringDoc(t) => ReportsText(own, StringPart, String, key, depth, t)
    case ArrayDoc(es) => ReportsContainer(own, ArrayBegin, ArrayEnd, key, depth, |es|)
    case ObjectDoc(ms) => ReportsContainer(own, ObjectBegin, ObjectEnd, key, depth, |ms|)
  }

  /** A key is reported without a name, inside its object. */
  predicate ReportsKey(own: seq<VisitEvent>, t: Text, depth: nat) {
    ReportsText(own, KeyPart, Key, "", depth, t)
  }

  // ------------------------------------------------------------------ one value

  lemma {:induction false} PiecesReported(kind: EventKind, key: string, depth: nat, parts: seq<string>)
    ensures ReportsPieces(TextEvents(kind, key, depth, parts), kind, key, depth, parts)
  {
    if parts != [] {
      var init := parts[..|parts| - 1];
      PiecesReported(kind, key, depth, init);
      forall k | 0 <= k < |parts|
        ensures ReportsPiece(TextEvents(kind, key, depth, parts)[k], kind, key, depth, parts, k)
      {
        if k < |init| {
          assert ReportsPiece(TextEvents(kind, key, depth, init)[k], kind, key, depth, init, k);
          assert init[..k + 1] == parts[..k + 1];
        } else {
          assert parts[..k + 1] == parts;
        }
      }
    }
  }

  lemma TextReported(part: EventKind, kind: EventKind, key: string, depth: nat, t: Text)
    requires part != NumberPart
    ensures ReportsText(TextEvents(part, key, depth, t.parts)
                        + [VisitEvent(kind, key, |Whole(t)|, depth, value := TextValue(t.last))],
                        part, kind, key, depth, t)
  {
    PiecesReported(part, key, depth, t.parts);
    var pieces := TextEvents(part, key, depth, t.parts);
    assert (pieces + [VisitEvent(kind, key, |Whole(t)|, depth, value := TextValue(t.last))])[..|pieces|] == pieces;
  }

  ghost predicate AtLeast(events: seq<VisitEvent>, depth: nat) {
    forall e <- events :: e.depth >= depth
  }

  lemma {:induction false} TextInside(kind: EventKind, key: string, depth: nat, parts: seq<string>)
    ensures AtLeast(TextEvents(kind, key, depth, parts), depth)
  {
    if parts != [] {
      TextInside(kind, key, depth, parts[..|parts| - 1]);
    }
  }

  lemma {:induction false} DocInside(d: Doc, key: string, depth: nat)
    ensures AtLeast(DocEvents(d, key, depth), depth)
    decreases d, 1
  {
    match d
    case NumberDoc(parts, _) => TextInside(NumberPart, key, depth, parts);
    case StringDoc(t) => TextInside(StringPart, key, depth, t.parts);
    case ArrayDoc(es) => ElementsInside(es, depth + 1);
    case ObjectDoc(ms) => MembersInside(ms, depth + 1);
    case _ =>
  }

  lemma {:induction false} ElementsInside(es: seq<Doc>, depth: nat)
    ensures AtLeast(ElementEvents(es, depth), depth)
    decreases es, 0
  {
    if es != [] {
      DocInside(es[0], "", depth);
      ElementsInside(es[1..], depth);
    }
  }

  lemma {:induction false} MembersInside(ms: seq<Member>, depth: nat)
    ensures AtLeast(MemberEvents(ms, depth), depth)
    decreases ms, 0
  {
    if ms != [] {
      var m := ms[0];
      assert m.value < m;
      TextInside(KeyPart, "", depth, m.key.parts);
      DocInside(m.value, Whole(m.key), depth);
      MembersInside(ms[1..], depth);
    }
  }

  lemma ContainerReported(begin: EventKind, end: EventKind, key: string, depth: nat, inner: seq<VisitEvent>, n: nat)
    requires AtLeast(inner, depth + 1)
    ensures ReportsContainer([VisitEvent(begin, key, 0, depth)] + inner + [VisitEvent(end, key, n, depth)],
                             begin, end, key, depth, n)
  {
    var own := [VisitEvent(begin, key, 0, depth)] + inner + [VisitEvent(end, key, n, depth)];
    forall k | 0 < k < |own| - 1 ensures own[k].depth > depth {
      assert own[k] == inner[k - 1];
    }
  }

  lemma DocReported(d: Doc, key: string, depth: nat)
    ensures Reports(DocEvents(d, key, depth), d, key, depth)
  {
    match d
    case NumberDoc(parts, number) =>
      PiecesReported(NumberPart, key, depth, parts);
      var pieces := TextEvents(NumberPart, key, depth, parts);
      assert DocEvents(d, key, depth)[..|parts|] == pieces;
    case StringDoc(t) => TextReported(StringPart, String, key, depth, t);
    case ArrayDoc(es) =>
      ElementsInside(es, depth + 1);
      ContainerReported(ArrayBegin, ArrayEnd, key, depth, ElementEvents(es, depth + 1), |es|);
    case ObjectDoc(ms) =>
      MembersInside(ms, depth + 1);
      ContainerReported(ObjectBegin, ObjectEnd, key, depth, MemberEvents(ms, depth + 1), |ms|);
    case _ =>
  }

  // ------------------------------------------------------------------ every value

  /** The values directly inside a value, with their names. */
  function Child(d: Doc, i: nat): Option<(Doc, string)> {
    if d.ArrayDoc? && i < |d.elements| then Some((d.elements[i], ""))
    else if d.ObjectDoc? && i < |d.members| then Some((d.members[i].value, Whole(d.members[i].key)))
    else None
  }

  /** The value a path of positions leads to, with its name. */
  function Inner(d: Doc, key: string, path: seq<nat>): Option<(Doc, string)> {
    if path == [] then Some((d, key))
    else
      var child :- Child(d, path[0]);
      Inner(child.0, child.1, path[1..])
  }

  predicate Slice(events: seq<VisitEvent>, i: nat, part: seq<VisitEvent>) {
    i + |part| <= |events| && events[i..i + |part|] == part
  }

  lemma SliceOfSlice(a: seq<VisitEvent>, i: nat, b: seq<VisitEvent>, j: nat, c: seq<VisitEvent>)
    requires Slice(a, i, b) && Slice(b, j, c)
    ensures Slice(a, i + j, c)
  {
    assert forall k :: 0 <= k < |c| ==> c[k] == b[j..j + |c|][k] == b[j + k] == a[i..i + |b|][j + k];
  }

  lemma SliceBetween(a: seq<VisitEvent>, b: seq<VisitEvent>, c: seq<VisitEvent>)
    ensures Slice(a + b + c, |a|, b)
  {
  }

  /** Where the events of an element begin. */
  function ElementStart(es: seq<Doc>, j: nat, depth: nat): nat
    requires j < |es|
  {
    if j == 0 then 0 else |DocEvents(es[0], "", depth)| + ElementStart(es[1..], j - 1, depth)
  }

  lemma {:induction false} ElementSlice(es: seq<Doc>, j: nat, depth: nat)
    requires j < |es|
    ensures Slice(ElementEvents(es, depth), ElementStart(es, j, depth), DocEvents(es[j], "", depth))
  {
    var first, rest := DocEvents(es[0], "", depth), ElementEvents(es[1..], depth);
    if j == 0 {
      SliceBetween([], first, rest);
      assert [] + first + rest == first + rest;
    } else {
      ElementSlice(es[1..], j - 1, depth);
      SliceBetween(first, rest, []);
      assert first + rest + [] == first + rest;
      SliceOfSlice(first + rest, |first|, rest, ElementStart(es[1..], j - 1, depth), DocEvents(es[j], "", depth));
    }
  }

  /** The events of a member: its key's, then its value's. */
  function OwnEvents(m: Member, depth: nat): seq<VisitEvent> {
    KeyEvents(m.key, depth) + DocEvents(m.value, Whole(m.key), depth)
  }

  function MemberStart(ms: seq<Member>, j: nat, depth: nat): nat
    requires j < |ms|
  {
    if j == 0 then 0 else |OwnEvents(ms[0], depth)| + MemberStart(ms[1..], j - 1, depth)
  }

  lemma {:induction false} MemberSlice(ms: seq<Member>, j: nat, depth: nat)
    requires j < |ms|
    ensures Slice(MemberEvents(ms, depth), MemberStart(ms, j, depth), OwnEvents(ms[j], depth))
  {
    var first, rest := OwnEvents(ms[0], depth), MemberEvents(ms[1..], depth);
    assert MemberEvents(ms, depth) == first + rest;
    hide OwnEvents, MemberEvents;
    if j == 0 {
      SliceBetween([], first, rest);
      assert [] + first + rest == first + rest;
    } else {
      MemberSlice(ms[1..], j - 1, depth);
      SliceBetween(first, rest, []);
      assert first + rest + [] == first + rest;
      SliceOfSlice(first + rest, |first|, rest, MemberStart(ms[1..], j - 1, depth), OwnEvents(ms[j], depth));
    }
  }

  /** A member's key and value in the events of its object. */
  lemma ObjectSlice(d: Doc, key: string, depth: nat, j: nat)
    requires d.ObjectDoc? && j < |d.members|
    ensures Slice(DocEvents(d, key, depth), 1 + MemberStart(d.members, j, depth + 1),
                  OwnEvents(d.members[j], depth + 1))
  {
    var inside := MemberEvents(d.members, depth + 1);
    SliceBetween([VisitEvent(ObjectBegin, key, 0, depth)], inside, [VisitEvent(ObjectEnd, key, |d.members|, depth)]);
    hide MemberEvents, OwnEvents, MemberStart;
    MemberSlice(d.members, j, depth + 1);
    SliceOfSlice(DocEvents(d, key, depth), 1, inside, MemberStart(d.members, j, depth + 1),
                 OwnEvents(d.members[j], depth + 1));
  }

  lemma ArraySlice(d: Doc, key: string, depth: nat, j: nat)
    requires d.ArrayDoc? && j < |d.elements|
    ensures Slice(DocEvents(d, key, depth), 1 + ElementStart(d.elements, j, depth + 1),
                  DocEvents(d.elements[j], "", depth + 1))
  {
    var inside := ElementEvents(d.elements, depth + 1);
    ElementSlice(d.elements, j, depth + 1);
    SliceBetween([VisitEvent(ArrayBegin, key, 0, depth)], inside, [VisitEvent(ArrayEnd, key, |d.elements|, depth)]);
    SliceOfSlice(DocEvents(d, key, depth), 1, inside, ElementStart(d.elements, j, depth + 1),
                 DocEvents(d.elements[j], "", depth + 1));
  }

  function ChildStart(d: Doc, j: nat, depth: nat): nat
    requires Child(d, j).Some?
  {
    if d.ArrayDoc? then 1 + ElementStart(d.elements, j, depth + 1)
    else 1 + MemberStart(d.members, j, depth + 1) + |KeyEvents(d.members[j].key, depth + 1)|
  }

  lemma ChildSlice(d: Doc, key: string, depth: nat, j: nat)
    requires Child(d, j).Some?
    ensures Slice(DocEvents(d, key, depth), ChildStart(d, j, depth),
                  DocEvents(Child(d, j).value.0, Child(d, j).value.1, depth + 1))
  {
    hide DocEvents, KeyEvents, Slice, Whole, ElementStart, MemberStart;
    if d.ArrayDoc? {
      ArraySlice(d, key, depth, j);
    } else {
      var m := d.members[j];
      var keys, own := KeyEvents(m.key, depth + 1), DocEvents(m.value, Whole(m.key), depth + 1);
      ObjectSlice(d, key, depth, j);
      SliceBetween(keys, own, []);
      assert keys + own + [] == keys + own;
      SliceOfSlice(DocEvents(d, key, depth), 1 + MemberStart(d.members, j, depth + 1), keys + own, |keys|, own);
    }
  }

  function InnerStart(d: Doc, key: string, depth: nat, path: seq<nat>): nat
    requires Inner(d, key, path).Some?
    decreases |path|
  {
    if path == [] then 0
    else
      var (child, name) := Child(d, path[0]).value;
      ChildStart(d, path[0], depth) + InnerStart(child, name, depth + 1, path[1..])
  }

  lemma {:induction false} InnerSlice(d: Doc, key: string, depth: nat, path: seq<nat>)
    requires Inner(d, key, path).Some?
    ensures Slice(DocEvents(d, key, depth), InnerStart(d, key, depth, path),
                  DocEvents(Inner(d, key, path).value.0, Inner(d, key, path).value.1, depth + |path|))
    decreases |path|
  {
    hide DocEvents, ChildStart;
    if path == [] {
      var events := DocEvents(d, key, depth);
      assert events[0..|events|] == events;
    } else {
      var (child, name) := Child(d, path[0]).value;
      ChildSlice(d, key, depth, path[0]);
      InnerSlice(child, name, depth + 1, path[1..]);
      var (v, n) := Inner(d, key, path).value;
      assert depth + 1 + |path[1..]| == depth + |path|;
      hide Slice, Child, Inner;
      SliceOfSlice(DocEvents(d, key, depth), ChildStart(d, path[0], depth), DocEvents(child, name, depth + 1),
                   InnerStart(child, name, depth + 1, path[1..]), DocEvents(v, n, depth + |path|));
    }
  }

  /** A run of the events reports the value. */
  ghost predicate ValueReported(events: seq<VisitEvent>, v: Doc, key: string, depth: nat) {
    exists i: nat, j: nat :: i <= j <= |events| && Reports(events[i..j], v, key, depth)
  }

  /** A run of the events reports a member's key, and the next one its value under that key. */
  ghost predicate MemberReported(events: seq<VisitEvent>, m: Member, depth: nat) {
    exists i: nat, j: nat, k: nat :: i <= j <= k <= |events|
      && ReportsKey(events[i..j], m.key, depth)
      && Reports(events[j..k], m.value, Whole(m.key), depth)
  }

  /** Every value of a document, at whatever depth, is reported in one run of events under its own name
    (its whole key, or nothing for the root and for elements) and with the number of containers around
    it. */
  lemma EveryValueReported(d: Doc, path: seq<nat>, v: Doc, key: string)
    requires Inner(d, "", path) == Some((v, key))
    ensures ValueReported(DocEvents(d, "", 0), v, key, |path|)
  {
    hide *;
    InnerSlice(d, "", 0, path);
    DocReported(v, key, |path|);
    ValueAt(DocEvents(d, "", 0), v, key, |path|, InnerStart(d, "", 0, path), DocEvents(v, key, |path|));
  }

  lemma ValueAt(events: seq<VisitEvent>, v: Doc, key: string, depth: nat, i: nat, own: seq<VisitEvent>)
    requires Slice(events, i, own) && Reports(own, v, key, depth)
    ensures ValueReported(events, v, key, depth)
  {
    hide Reports;
    assert Reports(events[i..i + |own|], v, key, depth);
  }

  lemma SliceParts(events: seq<VisitEvent>, i: nat, a: seq<VisitEvent>, b: seq<VisitEvent>)
    requires Slice(events, i, a + b)
    ensures i + |a| + |b| <= |events|
    ensures events[i..i + |a|] == a && events[i + |a|..i + |a| + |b|] == b
  {
    var n := |a + b|;
    assert events[i..i + n][..|a|] == a && events[i..i + n][|a|..] == b;
  }

  /** In every object of a document, each member's key is reported in its pieces directly before the
    member's value. */
  lemma EveryMemberReported(d: Doc, path: seq<nat>, v: Doc, key: string, j: nat)
    requires Inner(d, "", path) == Some((v, key)) && v.ObjectDoc? && j < |v.members|
    ensures MemberReported(DocEvents(d, "", 0), v.members[j], |path| + 1)
  {
    hide *;
    var m := v.members[j];
    var events, depth := DocEvents(d, "", 0), |path| + 1;
    var a, b := InnerStart(d, "", 0, path), 1 + MemberStart(v.members, j, depth);
    InnerSlice(d, "", 0, path);
    ObjectSlice(v, key, |path|, j);
    SliceOfSlice(events, a, DocEvents(v, key, |path|), b, OwnEvents(m, depth));
    MemberAt(events, m, depth, a + b);
  }

  lemma KeyReported(t: Text, depth: nat)
    ensures ReportsKey(KeyEvents(t, depth), t, depth)
  {
    TextReported(KeyPart, Key, "", depth, t);
  }

  lemma MemberAt(events: seq<VisitEvent>, m: Member, depth: nat, i: nat)
    requires Slice(events, i, OwnEvents(m, depth))
    ensures MemberReported(events, m, depth)
  {
    var keys, own := KeyEvents(m.key, depth), DocEvents(m.value, Whole(m.key), depth);
    assert OwnEvents(m, depth) == keys + own;
    hide Reports, ReportsKey, KeyEvents, DocEvents, OwnEvents, Whole, Slice;
    KeyReported(m.key, depth);
    DocReported(m.value, Whole(m.key), depth);
    SliceParts(events, i, keys, own);
    assert ReportsKey(events[i..i + |keys|], m.key, depth);
    assert Reports(events[i + |keys|..i + |keys| + |own|], m.value, Whole(m.key), depth);
  }
}
