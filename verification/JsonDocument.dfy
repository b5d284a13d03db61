/** JSON documents as the field views see them. */
module JsonDocument {
  import opened Wrappers

  /** The number kinds are those of the parser: signed, unsigned and floating point. */
  datatype Json =
    | JNull
    | JBool(b: bool)
    | JInt(i: int)
    | JUint(u: nat)
    | JDouble(d: real)
    | JString(s: string)
    | JArray(elements: seq<Json>)
    | JObject(members: seq<Member>)

  datatype Member = Member(key: string, value: Json)

  /** A field view's value: absent, or present with a value. */
  type View = Option<Json>

  const MAX_INT64: int := 0x7FFF_FFFF_FFFF_FFFF
  const MAX_UINT32: int := 0xFFFF_FFFF

  datatype Tag = Int64Tag | Uint32Tag | BoolTag | StringTag | DoubleTag | ObjectTag | ArrayTag

  predicate IsInt64(v: Json) {
    v.JInt? || (v.JUint? && v.u <= MAX_INT64)
  }

  function AsInt64(v: Json): int
    requires IsInt64(v)
  {
    if v.JInt? then v.i else v.u
  }

  predicate IsUint32(v: Json) {
    (v.JUint? && v.u <= MAX_UINT32) || (v.JInt? && 0 <= v.i <= MAX_UINT32)
  }

  function AsUint32(v: Json): nat
    requires IsUint32(v)
  {
    if v.JUint? then v.u else v.i
  }

  predicate Is(tag: Tag, v: Json) {
    match tag
    case Int64Tag => IsInt64(v)
    case Uint32Tag => IsUint32(v)
    case BoolTag => v.JBool?
    case StringTag => v.JString?
    case DoubleTag => v.JDouble?
    case ObjectTag => v.JObject?
    case ArrayTag => v.JArray?
  }

  predicate Scalar(v: Json) {
    !v.JArray? && !v.JObject?
  }

  /** What `set` can store: every overload takes a scalar. */
  type ScalarJson = v: Json | Scalar(v) witness JNull

  // ------------------------------------------------------------------ navigation

  /** The position of the first member with `key`, or the number of members. */
  function Find(ms: seq<Member>, key: string): (i: nat)
    ensures i <= |ms| && (i < |ms| ==> ms[i].key == key)
    ensures forall j :: 0 <= j < i ==> ms[j].key != key
  {
    if ms == [] || ms[0].key == key then 0 else 1 + Find(ms[1..], key)
  }

  function Child(v: Json, key: string): View {
    if v.JObject? && Find(v.members, key) < |v.members|
    then Some(v.members[Find(v.members, key)].value) else None
  }

  /** Writes through the view of a present child; an absent one has nothing to write to. */
  function SetChild(v: Json, key: string, child: View): Json {
    if child.Some? && Child(v, key).Some? then
      var i := Find(v.members, key);
      v.(members := v.members[i := Member(key, child.value)])
    else v
  }

  function Element(v: Json, i: nat): View {
    if v.JArray? && i < |v.elements| then Some(v.elements[i]) else None
  }

  lemma {:induction false} FindAfterSet(ms: seq<Member>, i: nat, value: Json, key: string)
    requires i < |ms|
    ensures Find(ms[i := Member(ms[i].key, value)], key) == Find(ms, key)
  {
    var ms' := ms[i := Member(ms[i].key, value)];
    if ms[0].key != key && i > 0 {
      FindAfterSet(ms[1..], i - 1, value, key);
      assert ms'[1..] == ms[1..][i - 1 := Member(ms[i].key, value)];
    } else if i == 0 {
      assert ms'[1..] == ms[1..];
    }
  }

  /** Writing a child is read back, and no other child is affected. */
  lemma ChildAfterSet(v: Json, key: string, child: View, other: string)
    ensures Child(SetChild(v, key, child), other)
         == if other == key && child.Some? && Child(v, key).Some? then child else Child(v, other)
  {
    if child.Some? && Child(v, key).Some? {
      FindAfterSet(v.members, Find(v.members, key), child.value, other);
    }
  }

  lemma SetSameChild(v: Json, key: string)
    ensures SetChild(v, key, Child(v, key)) == v
  {
    if Child(v, key).Some? {
      var i := Find(v.members, key);
      assert v.members[i := v.members[i]] == v.members;
    }
  }

  // ------------------------------------------------------------------ shape

  /** The same keys in the same places and the same array lengths, at every depth. */
  ghost predicate SameShape(a: Json, b: Json) {
    match (a, b)
    case (JArray(es), JArray(fs)) =>
      |es| == |fs| && forall i :: 0 <= i < |es| ==> SameShape(es[i], fs[i])
    case (JObject(ms), JObject(ns)) =>
      |ms| == |ns|
      && forall i :: 0 <= i < |ms| ==> ms[i].key == ns[i].key && SameShape(ms[i].value, ns[i].value)
    case _ => Scalar(a) && Scalar(b)
  }

  lemma {:induction false} ShapeReflexive(a: Json)
    ensures SameShape(a, a)
  {
    match a
    case JArray(es) =>
      forall i | 0 <= i < |es| ensures SameShape(es[i], es[i]) {
        ShapeReflexive(es[i]);
      }
    case JObject(ms) =>
      forall i | 0 <= i < |ms| ensures SameShape(ms[i].value, ms[i].value) {
        assert ms[i].value < ms[i];
        ShapeReflexive(ms[i].value);
      }
    case _ =>
  }

  lemma {:induction false} ShapeTransitive(a: Json, b: Json, c: Json)
    requires SameShape(a, b) && SameShape(b, c)
    ensures SameShape(a, c)
  {
    match a
    case JArray(es) =>
      forall i | 0 <= i < |es| ensures SameShape(es[i], c.elements[i]) {
        ShapeTransitive(es[i], b.elements[i], c.elements[i]);
      }
    case JObject(ms) =>
      forall i | 0 <= i < |ms| ensures SameShape(ms[i].value, c.members[i].value) {
        assert ms[i].value < ms[i];
        ShapeTransitive(ms[i].value, b.members[i].value, c.members[i].value);
      }
    case _ =>
  }

  /** Replacing a child by one of the same shape keeps the shape. */
  lemma ShapeOfSet(v: Json, key: string, child: View)
    requires child.Some? && Child(v, key).Some? ==> SameShape(Child(v, key).value, child.value)
    ensures SameShape(v, SetChild(v, key, child))
  {
    ShapeReflexive(v);
    if child.Some? && Child(v, key).Some? {
      var i := Find(v.members, key);
      var w := SetChild(v, key, child);
      forall j | 0 <= j < |v.members|
        ensures v.members[j].key == w.members[j].key
        ensures SameShape(v.members[j].value, w.members[j].value)
      {
        if j != i {
          ShapeReflexive(v.members[j].value);
        }
      }
    }
  }

  lemma ShapeKeepsChildren(a: Json, b: Json, key: string)
    requires SameShape(a, b)
    ensures Child(a, key).Some? <==> Child(b, key).Some?
  {
    if a.JObject? {
      SameKeysFind(a.members, b.members, key);
    }
  }

  lemma {:induction false} SameKeysFind(ms: seq<Member>, ns: seq<Member>, key: string)
    requires |ms| == |ns| && forall i :: 0 <= i < |ms| ==> ms[i].key == ns[i].key
    ensures Find(ms, key) == Find(ns, key)
  {
    if ms != [] && ms[0].key != key {
      SameKeysFind(ms[1..], ns[1..], key);
    }
  }
}
