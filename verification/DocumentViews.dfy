/** Views into a JSON document: what a view can read and write, and the steps that items take
  through one, in place. */
module DocumentViews {
  import opened JsonDocument
  import Items = SpecItems
  import opened Wrappers

  // ------------------------------------------------------------------ pointers into a document

  /** A pointer to a value of a document: which member or element to descend to, from the root. */
  type Path = seq<nat>

  function Inner(v: Json, i: nat): Option<Json> {
    if v.JArray? && i < |v.elements| then Some(v.elements[i])
    else if v.JObject? && i < |v.members| then Some(v.members[i].value)
    else None
  }

  function WithInner(v: Json, i: nat, x: Json): Json
    requires Inner(v, i).Some?
  {
    if v.JArray? then v.(elements := v.elements[i := x])
    else v.(members := v.members[i := Member(v.members[i].key, x)])
  }

  /** The value a pointer points to. */
  function Lookup(v: Json, p: Path): Option<Json> {
    if p == [] then Some(v)
    else
      var inner :- Inner(v, p[0]);
      Lookup(inner, p[1..])
  }

  /** The document after a write through a pointer. */
  function Update(v: Json, p: Path, x: Json): Json
    requires Lookup(v, p).Some?
  {
    if p == [] then x else WithInner(v, p[0], Update(Inner(v, p[0]).value, p[1..], x))
  }

  lemma {:induction false} LookupConcat(v: Json, p: Path, q: Path)
    requires Lookup(v, p).Some?
    ensures Lookup(v, p + q) == Lookup(Lookup(v, p).value, q)
  {
    if p == [] {
      assert p + q == q;
    } else {
      assert (p + q)[1..] == p[1..] + q;
      LookupConcat(Inner(v, p[0]).value, p[1..], q);
    }
  }

  /** Writing below a pointer writes into what it points to. */
  lemma {:induction false} UpdateConcat(v: Json, p: Path, q: Path, x: Json)
    requires Lookup(v, p).Some? && Lookup(Lookup(v, p).value, q).Some?
    ensures Lookup(v, p + q).Some?
    ensures Update(v, p + q, x) == Update(v, p, Update(Lookup(v, p).value, q, x))
  {
    LookupConcat(v, p, q);
    if p == [] {
      assert p + q == q;
    } else {
      assert (p + q)[1..] == p[1..] + q;
      UpdateConcat(Inner(v, p[0]).value, p[1..], q, x);
    }
  }

  lemma {:induction false} LookupUpdated(v: Json, p: Path, x: Json)
    requires Lookup(v, p).Some?
    ensures Lookup(Update(v, p, x), p) == Some(x)
  {
    if p != [] {
      LookupUpdated(Inner(v, p[0]).value, p[1..], x);
    }
  }

  lemma {:induction false} UpdateTwice(v: Json, p: Path, x: Json, y: Json)
    requires Lookup(v, p).Some?
    ensures Lookup(Update(v, p, x), p).Some? && Update(Update(v, p, x), p, y) == Update(v, p, y)
  {
    LookupUpdated(v, p, x);
    if p != [] {
      UpdateTwice(Inner(v, p[0]).value, p[1..], x, y);
    }
  }

  lemma {:induction false} UpdateSame(v: Json, p: Path)
    requires Lookup(v, p).Some?
    ensures Update(v, p, Lookup(v, p).value) == v
  {
    if p != [] {
      UpdateSame(Inner(v, p[0]).value, p[1..]);
      if v.JArray? {
        assert v.elements[p[0] := v.elements[p[0]]] == v.elements;
      } else {
        assert v.members[p[0] := v.members[p[0]]] == v.members;
      }
    }
  }

  // ------------------------------------------------------------------ views

  /** A view has a handle to read through and one to write through. A view made from a mutable value
    has both, one made from a const value only the first, and an absent one neither. */
  datatype FieldView = FieldView(read: Option<Path>, write: Option<Path>, key: string) {
    predicate Present() {
      read.Some?
    }

    /** Neither handle dangles. */
    predicate Live(root: Json) {
      (read.Some? ==> Lookup(root, read.value).Some?) && (write.Some? ==> Lookup(root, write.value).Some?)
    }

    /** What is read through the view. */
    function Value(root: Json): View
      requires Live(root)
    {
      if read.Some? then Lookup(root, read.value) else None
    }

    predicate IsNull(root: Json)
      requires Live(root)
    {
      read.Some? && Value(root).value.JNull?
    }

    predicate IsString(root: Json)
      requires Live(root)
    {
      read.Some? && Value(root).value.JString?
    }

    predicate IsObject(root: Json)
      requires Live(root)
    {
      read.Some? && Value(root).value.JObject?
    }

    predicate IsArray(root: Json)
      requires Live(root)
    {
      read.Some? && Value(root).value.JArray?
    }

    predicate HoldsInt64(root: Json)
      requires Live(root)
    {
      read.Some? && IsInt64(Value(root).value)
    }

    predicate HoldsUint32(root: Json)
      requires Live(root)
    {
      read.Some? && IsUint32(Value(root).value)
    }

    predicate IsDouble(root: Json)
      requires Live(root)
    {
      read.Some? && Value(root).value.JDouble?
    }

    predicate Holds(tag: Tag, root: Json)
      requires Live(root)
    {
      read.Some? && Is(tag, Value(root).value)
    }

    function ArraySize(root: Json): nat
      requires Live(root)
    {
      if read.None? || !IsArray(root) then 0 else |Value(root).value.elements|
    }

    /** A named child. A writable object gives a mutable view, anything else that can be read a
      const one. */
    function ChildView(root: Json, childKey: string): FieldView
      requires Live(root)
    {
      if write.Some? && Lookup(root, write.value).value.JObject? then
        var members := Lookup(root, write.value).value.members;
        var i := Find(members, childKey);
        if i == |members| then AbsentMutable(childKey) else MutableView(write.value + [i], childKey)
      else if read.None? || !Lookup(root, read.value).value.JObject? then AbsentConst(childKey)
      else
        var members := Lookup(root, read.value).value.members;
        var i := Find(members, childKey);
        if i == |members| then AbsentConst(childKey) else ConstView(read.value + [i], childKey)
    }

    /** An element, under the key of its array. */
    function ElementView(root: Json, i: nat): FieldView
      requires Live(root)
    {
      if write.Some? && Lookup(root, write.value).value.JArray? then
        if i >= |Lookup(root, write.value).value.elements| then AbsentMutable(key)
        else MutableView(write.value + [i], key)
      else if read.None? || !Lookup(root, read.value).value.JArray? then AbsentConst(key)
      else if i >= |Lookup(root, read.value).value.elements| then AbsentConst(key)
      else ConstView(read.value + [i], key)
    }

    /** Present implies writable, and both handles point to the same value. */
    predicate Mutable() {
      read == write
    }

    predicate Const() {
      write.None?
    }
  }

  function MutableView(p: Path, key: string): FieldView { FieldView(Some(p), Some(p), key) }

  function ConstView(p: Path, key: string): FieldView { FieldView(Some(p), None, key) }

  function AbsentMutable(key: string): FieldView { FieldView(None, None, key) }

  function AbsentConst(key: string): FieldView { FieldView(None, None, key) }

  /** The view of a request's document root, which is always present. */
  function RootView(mutable: bool): FieldView {
    if mutable then MutableView([], "") else ConstView([], "")
  }

  /** A child's view sees the child. */
  lemma ChildViewSees(view: FieldView, root: Json, key: string)
    requires view.Live(root) && (view.Mutable() || view.Const())
    ensures var child := view.ChildView(root, key);
      && child.Live(root) && child.key == key
      && child.Value(root) == (if view.Present() then Child(view.Value(root).value, key) else None)
  {
    if view.Present() && view.Value(root).value.JObject? {
      var v, p := view.Value(root).value, view.read.value;
      var i := Find(v.members, key);
      LookupConcat(root, p, [i]);
      if i < |v.members| {
        assert Lookup(v, [i]) == Lookup(v.members[i].value, [i][1..]);
      }
    }
  }

  lemma ElementViewSees(view: FieldView, root: Json, i: nat)
    requires view.Live(root) && (view.Mutable() || view.Const())
    ensures var element := view.ElementView(root, i);
      && element.Live(root) && element.key == view.key
      && (element.Present() <==> i < view.ArraySize(root))
      && element.Value(root) == (if view.Present() then Element(view.Value(root).value, i) else None)
  {
    if view.Present() && view.Value(root).value.JArray? {
      var v, p := view.Value(root).value, view.read.value;
      LookupConcat(root, p, [i]);
      if i < |v.elements| {
        assert Lookup(v, [i]) == Lookup(v.elements[i], [i][1..]);
      }
    }
  }

  /** How a view is reached from the root: children and elements, in any order. */
  datatype Hop = ToChild(key: string) | ToElement(index: nat)

  function Reached(view: FieldView, root: Json, hops: seq<Hop>): (r: FieldView)
    requires view.Live(root) && (view.Mutable() || view.Const())
    ensures r.Live(root)
    ensures view.Mutable() ==> r.Mutable()
    ensures view.Const() ==> r.Const()
    decreases |hops|
  {
    if hops == [] then view
    else
      match hops[0]
      case ToChild(key) =>
        ChildViewSees(view, root, key);
        Reached(view.ChildView(root, key), root, hops[1..])
      case ToElement(i) =>
        ElementViewSees(view, root, i);
        Reached(view.ElementView(root, i), root, hops[1..])
  }

  /** From a mutable root every view reached is writable exactly when it is present, and writes
    where it reads; from a const root none is ever writable. */
  lemma ReachedFromRoot(root: Json, mutable: bool, hops: seq<Hop>)
    ensures var view := Reached(RootView(mutable), root, hops);
      && view.Live(root)
      && (mutable ==> (view.Present() <==> view.write.Some?) && view.read == view.write)
      && (!mutable ==> view.write.None?)
  {
  }

  // ------------------------------------------------------------------ writes

  /** The document once what the view sees is `v`. */
  function Written(root: Json, view: FieldView, v: View): Json
    requires view.Live(root)
  {
    if view.read.Some? && v.Some? then Update(root, view.read.value, v.value) else root
  }

  /** A step reported `r` and left the document `after`: it did what `out` says to the value the view
    sees and nothing to the rest of the document. */
  ghost predicate Did(before: Json, view: FieldView, out: (Items.Result, View), r: Items.Result, after: Json) {
    && view.Live(before)
    && view.Live(after)
    && r == out.0
    && view.Value(after) == out.1
    && after == Written(before, view, out.1)
  }

  lemma DidNothing(root: Json, view: FieldView)
    requires view.Live(root) && view.Mutable()
    ensures Did(root, view, (Items.Ok, view.Value(root)), Items.Ok, root)
  {
    if view.Present() {
      UpdateSame(root, view.read.value);
    }
  }

  lemma DidSet(root: Json, view: FieldView, x: Json)
    requires view.Live(root) && view.Mutable() && view.Present()
    ensures var after := Update(root, view.write.value, x);
      view.Live(after) && view.Value(after) == Some(x) && after == Written(root, view, Some(x))
  {
    LookupUpdated(root, view.read.value, x);
  }

  /** Two steps through one view. */
  lemma DidThen(before: Json, view: FieldView, v: View, mid: Json, out: (Items.Result, View), r: Items.Result,
                after: Json)
    requires view.Live(before) && view.Mutable() && (view.Present() ==> v.Some?)
    requires view.Live(mid) && mid == Written(before, view, v)
    requires Did(mid, view, out, r, after)
    ensures Did(before, view, out, r, after)
  {
    if view.Present() && out.1.Some? {
      UpdateTwice(before, view.read.value, v.value, out.1.value);
    }
  }

  /** A write through a child's view is a write of the child into what the parent's view sees. */
  lemma ChildWritten(root: Json, view: FieldView, key: string, v: View)
    requires view.Live(root) && view.Mutable() && view.IsObject(root)
    requires view.ChildView(root, key).Live(root)
    requires Child(view.Value(root).value, key).Some? <==> v.Some?
    ensures var after := Written(root, view.ChildView(root, key), v);
      var parent := Some(SetChild(view.Value(root).value, key, v));
      view.Live(after) && view.Value(after) == parent && after == Written(root, view, parent)
  {
    var p, value := view.read.value, view.Value(root).value;
    var i := Find(value.members, key);
    ChildViewSees(view, root, key);
    if v.Some? {
      assert Lookup(value, [i]) == Lookup(value.members[i].value, [i][1..]);
      UpdateConcat(root, p, [i], v.value);
      assert Update(value, [i], v.value) == WithInner(value, i, Update(Inner(value, i).value, [i][1..], v.value));
      assert SetChild(value, key, v) == Update(value, [i], v.value);
    } else {
      UpdateSame(root, p);
    }
    LookupUpdated(root, p, SetChild(value, key, v));
  }

  /** Views of children stay what they are when a child is rewritten. */
  lemma ChildViewStays(root: Json, after: Json, view: FieldView, key: string, v: View, other: string)
    requires view.Live(root) && view.Live(after) && view.Mutable() && view.IsObject(root)
    requires view.Value(after) == Some(SetChild(view.Value(root).value, key, v))
    ensures view.ChildView(after, other) == view.ChildView(root, other)
  {
    var value := view.Value(root).value;
    if v.Some? && Child(value, key).Some? {
      FindAfterSet(value.members, Find(value.members, key), v.value, other);
    }
  }

  lemma ElementWritten(root: Json, view: FieldView, i: nat, x: Json)
    requires view.Live(root) && view.Mutable() && view.IsArray(root) && i < view.ArraySize(root)
    requires view.ElementView(root, i).Live(root)
    ensures var after := Written(root, view.ElementView(root, i), Some(x));
      var es := view.Value(root).value.elements;
      var whole := Some(JArray(es[i := x]));
      view.Live(after) && view.Value(after) == whole && after == Written(root, view, whole)
  {
    var p, value := view.read.value, view.Value(root).value;
    ElementViewSees(view, root, i);
    assert Lookup(value, [i]) == Lookup(value.elements[i], [i][1..]);
    UpdateConcat(root, p, [i], x);
    assert Update(value, [i], x) == WithInner(value, i, Update(Inner(value, i).value, [i][1..], x));
    LookupUpdated(root, p, JArray(value.elements[i := x]));
  }
}
