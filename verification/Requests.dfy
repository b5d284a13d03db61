/** A request document rewritten in place: what every item does through a view into it. Each step is
  proved against the meaning of its item and leaves the rest of the document alone. */
module Requests {
  import opened DocumentViews
  import opened JsonDocument
  import Items = SpecItems
  import opened Wrappers

  class Request {
    var root: Json

    constructor (root: Json)
      ensures this.root == root
    {
      this.root := root;
    }

    /** Overwrites the value behind the view's write handle. */
    method Set(view: FieldView, x: Json)
      requires view.Live(root) && view.write.Some?
      modifies this
      ensures root == Update(old(root), view.write.value, x)
    {
      root := Update(root, view.write.value, x);
    }

    /** Through a mutable view that was found present, a write changes what the view reads. */
    method SetSeen(view: FieldView, x: Json)
      requires view.Live(root) && view.Mutable() && view.Present()
      modifies this
      ensures view.Live(root) && view.Value(root) == Some(x)
      ensures root == Written(old(root), view, Some(x))
    {
      DidSet(root, view, x);
      Set(view, x);
    }

    // ---------------------------------------------------------------- built-in modifiers

    /** Writes only to a value of the clamp's own number type. */
    method ModifyClamp(view: FieldView, m: Items.Modifier) returns (r: Items.Result)
      requires m.ClampInt64? || m.ClampUint32? || m.ClampDouble?
      requires view.Live(root) && view.Mutable()
      modifies this
      ensures Did(old(root), view, Items.Apply(Items.Modify(m), view.key, old(view.Value(root))), r, root)
    {
      DidNothing(root, view);
      match m {
        case ClampInt64(lo, hi) =>
          if view.HoldsInt64(root) {
            SetSeen(view, JInt(Items.ClampTo(AsInt64(view.Value(root).value), lo, hi)));
          }
        case ClampUint32(lo, hi) =>
          if view.HoldsUint32(root) {
            var x := AsUint32(view.Value(root).value);
            SetSeen(view, JUint(if x < lo then lo else if hi < x then hi else x));
          }
        case ClampDouble(lo, hi) =>
          if view.IsDouble(root) {
            var x := view.Value(root).value.d;
            SetSeen(view, JDouble(if x < lo then lo else if hi < x then hi else x));
          }
      }
      r := Items.Ok;
    }

    /** A view that holds a uint32 also holds an int64, so the source's branch for the former alone is
      never taken. */
    method ModifyClampAs(view: FieldView, lo: int, hi: int, unsigned: bool) returns (r: Items.Result)
      requires view.Live(root) && view.Mutable()
      modifies this
      ensures Did(old(root), view,
                  Items.Apply(Items.Modify(Items.ClampAs(lo, hi, unsigned)), view.key, old(view.Value(root))), r, root)
    {
      DidNothing(root, view);
      r := Items.Ok;
      if !view.Present() {
        return;
      }
      if view.HoldsInt64(root) {
        var x := Items.ClampTo(AsInt64(view.Value(root).value), lo, hi);
        if unsigned {
          if x < 0 {
            x := 0;
          }
          SetSeen(view, JUint(x));
        } else {
          SetSeen(view, JInt(x));
        }
      }
    }

    method ModifyNullAs(view: FieldView, value: ScalarJson) returns (r: Items.Result)
      requires view.Live(root) && view.Mutable()
      modifies this
      ensures Did(old(root), view,
                  Items.Apply(Items.Modify(Items.NullAs(value)), view.key, old(view.Value(root))), r, root)
    {
      DidNothing(root, view);
      if view.IsNull(root) {
        SetSeen(view, value);
      }
      r := Items.Ok;
    }

    method ModifyToNumber(view: FieldView) returns (r: Items.Result)
      requires view.Live(root) && view.Mutable()
      modifies this
      ensures Did(old(root), view,
                  Items.Apply(Items.Modify(Items.ToNumber), view.key, old(view.Value(root))), r, root)
    {
      DidNothing(root, view);
      if !view.Present() || !view.IsString(root) {
        return Items.Ok;
      }
      var n := Items.ToNumberValue(view.Value(root).value.s);
      if n.None? {
        return Items.Fail(Items.INVALID_PARAMS);
      }
      SetSeen(view, JInt(n.value));
      return Items.Ok;
    }

    method ModifyLexical(view: FieldView) returns (r: Items.Result)
      requires view.Live(root) && view.Mutable()
      modifies this
      ensures Did(old(root), view,
                  Items.Apply(Items.Modify(Items.LexicalUint32), view.key, old(view.Value(root))), r, root)
    {
      DidNothing(root, view);
      if !view.Present() || !view.IsString(root) {
        return Items.Ok;
      }
      var n := Items.LexicalValue(view.Value(root).value.s);
      if n.None? {
        return Items.Fail(Items.INVALID_PARAMS);
      }
      SetSeen(view, JUint(n.value));
      return Items.Ok;
    }

    method ModifyToLower(view: FieldView) returns (r: Items.Result)
      requires view.Live(root) && view.Mutable()
      modifies this
      ensures Did(old(root), view,
                  Items.Apply(Items.Modify(Items.ToLower), view.key, old(view.Value(root))), r, root)
    {
      DidNothing(root, view);
      if !view.Present() || !view.IsString(root) {
        return Items.Ok;
      }
      SetSeen(view, JString(Items.Lower(view.Value(root).value.s)));
      return Items.Ok;
    }

    /** One oracle, through the view of its element and the views of its two children. */
    method ValidateOracle(elem: FieldView, isAccount: string -> bool) returns (r: Items.Result)
      requires elem.Live(root) && elem.Mutable() && elem.Present()
      modifies this
      ensures var out := Items.RewriteOracle(isAccount, old(elem.Value(root)).value);
        Did(old(root), elem, (out.0, Some(out.1)), r, root)
    {
      DidNothing(root, elem);
      hide Items.StringToNumber, Update, Lookup;
      ghost var was, v := root, elem.Value(root).value;
      if !elem.IsObject(root) {
        return Items.Fail(Items.Status(1, ""));
      }
      var docId := elem.ChildView(root, "oracle_document_id");
      var account := elem.ChildView(root, "account");
      ChildViewSees(elem, root, "oracle_document_id");
      ChildViewSees(elem, root, "account");
      if !docId.Present() || !account.Present() {
        return Items.Fail(Items.Status(1, ""));
      }
      if !docId.HoldsUint32(root) && !docId.IsString(root) {
        return Items.Fail(Items.INVALID_PARAMS);
      }
      var id := docId.Value(root).value;
      r := ModifyToNumber(docId);
      ghost var id' := Items.StringToNumber(id).1;
      assert docId.Value(root) == Some(id') && r == Items.StringToNumber(id).0;
      ChildWritten(was, elem, "oracle_document_id", Some(id'));
      ChildViewSees(elem, root, "account");
      ChildAfterSet(v, "oracle_document_id", Some(id'), "account");
      if r.Fail? {
        return;
      }
      ChildViewStays(was, root, elem, "oracle_document_id", Some(id'), "account");
      if !account.IsString(root) || !isAccount(account.Value(root).value.s) {
        return Items.Fail(Items.INVALID_PARAMS);
      }
    }

    /** The loop over the array: elements before the first bad one stay rewritten, those after it are
      not looked at. */
    method ValidateOracles(view: FieldView, isAccount: string -> bool) returns (r: Items.Result)
      requires view.Live(root) && view.Mutable()
      modifies this
      ensures Did(old(root), view,
                  Items.Apply(Items.Modify(Items.OracleIds(isAccount)), view.key, old(view.Value(root))), r, root)
    {
      DidNothing(root, view);
      if !view.Present() {
        return Items.Ok;
      }
      if !view.IsArray(root) || view.ArraySize(root) == 0 || view.ArraySize(root) > 200 {
        return Items.Fail(Items.Status(1, ""));
      }
      var size := view.ArraySize(root);
      ghost var was, es := root, view.Value(root).value.elements;
      OraclesOf(isAccount, es);
      RewrittenBounds(isAccount, es, es);
      hide Items.RewriteOracles, Items.RewriteOracle, Items.Rewrite, Rewritten, Did, Update, Lookup, Written;
      for i := 0 to size
        invariant view.Live(root) && view.IsArray(root) && view.ArraySize(root) == size
        invariant root == Written(was, view, view.Value(root))
        invariant Rewritten(isAccount, es, i, view.Value(root).value.elements)
      {
        ghost var now := view.Value(root).value.elements;
        RewrittenStep(isAccount, es, i, now);
        ElementViewSees(view, root, i);
        var elem := view.ElementView(root, i);
        ghost var mid := root;
        r := ValidateOracle(elem, isAccount);
        ElementStep(was, mid, view, i, Items.RewriteOracle(isAccount, now[i]), r, root);
        if r.Fail? {
          OraclesDone(isAccount, was, view, r, root);
          return;
        }
      }
      RewrittenBounds(isAccount, es, view.Value(root).value.elements);
      OraclesDone(isAccount, was, view, Items.Ok, root);
      r := Items.Ok;
    }

    // ---------------------------------------------------------------- items

    method ModifyBuiltIn(view: FieldView, m: Items.Modifier) returns (r: Items.Result)
      requires view.Live(root) && view.Mutable()
      modifies this
      ensures Did(old(root), view, Items.Apply(Items.Modify(m), view.key, old(view.Value(root))), r, root)
    {
      match m
      case ClampAs(lo, hi, unsigned) => r := ModifyClampAs(view, lo, hi, unsigned);
      case NullAs(value) => r := ModifyNullAs(view, value);
      case ToNumber => r := ModifyToNumber(view);
      case LexicalUint32 => r := ModifyLexical(view);
      case ToLower => r := ModifyToLower(view);
      case OracleIds(isAccount) => r := ValidateOracles(view, isAccount);
      case _ => r := ModifyClamp(view, m);
    }

    /** A section runs its fields through the views of this view's children. */
    method ModifySection(view: FieldView, subs: seq<Items.SubField>) returns (r: Items.Result)
      requires view.Live(root) && view.Mutable()
      modifies this
      ensures Did(old(root), view, Items.Apply(Items.Section(subs), view.key, old(view.Value(root))), r, root)
      decreases subs, 0
    {
      DidNothing(root, view);
      if !view.Present() {
        return Items.Ok;
      }
      if !view.IsObject(root) {
        return Items.Fail(Items.INVALID_PARAMS);
      }
      ghost var was := root;
      ghost var all := Items.RunSubFields(subs, view.Value(root).value);
      assert subs[0..] == subs;
      SectionOf(subs, view.key, view.Value(root).value);
      hide *;
      for i := 0 to |subs|
        invariant view.Live(root) && view.IsObject(root) && root == Written(was, view, view.Value(root))
        invariant all == Items.RunSubFields(subs[i..], view.Value(root).value)
      {
        ghost var mid, v := root, view.Value(root).value;
        SectionStep(subs, i, v);
        ChildViewSees(view, root, subs[i].key);
        MutableChild(view, root, subs[i].key);
        var child := view.ChildView(root, subs[i].key);
        r := RunProcessors(child, subs[i].items);
        ChildStep(was, mid, view, subs[i], r, root);
        if r.Fail? {
          DidAll(was, view, all, r, root);
          return;
        }
      }
      NoSubFields(subs, view.Value(root).value);
      DidAll(was, view, all, Items.Ok, root);
      return Items.Ok;
    }

    /** A type branch runs its items only on a value of its type. */
    method ModifyIfType(view: FieldView, tag: Tag, items: seq<Items.Item>) returns (r: Items.Result)
      requires view.Live(root) && view.Mutable()
      modifies this
      ensures Did(old(root), view, Items.Apply(Items.IfType(tag, items), view.key, old(view.Value(root))), r, root)
      decreases items, 1
    {
      DidNothing(root, view);
      if !view.Present() || !view.Holds(tag, root) {
        return Items.Ok;
      }
      r := RunProcessors(view, items);
    }

    /** A server conditional runs its modifiers, up to the first failure, on its own server. */
    method ModifyConditional(view: FieldView, active: bool, inners: seq<Items.Item>) returns (r: Items.Result)
      requires view.Live(root) && view.Mutable()
      modifies this
      ensures Did(old(root), view,
                  Items.Apply(Items.ServerConditional(active, inners), view.key, old(view.Value(root))), r, root)
      decreases inners, 1
    {
      DidNothing(root, view);
      if !active {
        return Items.Ok;
      }
      ghost var was, all := root, Items.ApplyAll(inners, view.key, view.Value(root));
      assert inners[0..] == inners;
      hide Items.ApplyAll, Items.Apply, Did, Written, Lookup, Update;
      WrittenSelf(root, view);
      for i := 0 to |inners|
        invariant view.Live(root) && root == Written(was, view, view.Value(root))
        invariant all == Items.ApplyAll(inners[i..], view.key, view.Value(root))
      {
        ghost var mid := root;
        ConditionalStep(inners, i, view.key, view.Value(root));
        if Items.IsModifier(inners[i]) {
          r := Modify(view, inners[i]);
          DidAgain(was, mid, view, Items.Apply(inners[i], view.key, view.Value(mid)), r, root);
          if r.Fail? {
            DidWhole(was, view, all, r, root);
            return;
          }
        }
      }
      NothingLeft(inners, view.key, view.Value(root));
      DidWhole(was, view, all, Items.Ok, root);
      return Items.Ok;
    }

    /** Runs one item as a modifier. A custom error replaces the status, not what was written. */
    method Modify(view: FieldView, item: Items.Item) returns (r: Items.Result)
      requires view.Live(root) && view.Mutable()
      modifies this
      ensures Did(old(root), view, Items.Apply(item, view.key, old(view.Value(root))), r, root)
      decreases item, 1
    {
      DidNothing(root, view);
      match item
      case Modify(m) => r := ModifyBuiltIn(view, m);
      case Section(subs) => r := ModifySection(view, subs);
      case IfType(tag, items) => r := ModifyIfType(view, tag, items);
      case WithCustomError(w, status) =>
        r := Modify(view, w);
        if r.Fail? {
          r := Items.Fail(status);
        }
      case ServerConditional(active, inners) => r := ModifyConditional(view, active, inners);
      case _ => r := Items.Ok;
    }

    /** Requirements only read through the view, modifiers write through it, in declaration order up
      to the first failure. */
    method RunProcessors(view: FieldView, items: seq<Items.Item>) returns (r: Items.Result)
      requires view.Live(root) && view.Mutable()
      modifies this
      ensures Did(old(root), view, Items.RunProcessors(items, view.key, old(view.Value(root))), r, root)
      decreases items, 0
    {
      ghost var was, all := root, Items.RunProcessors(items, view.key, view.Value(root));
      assert items[0..] == items;
      hide Items.RunProcessors, Items.Apply, Items.Verify, Did, Written, Lookup, Update;
      WrittenSelf(root, view);
      for i := 0 to |items|
        invariant view.Live(root) && root == Written(was, view, view.Value(root))
        invariant all == Items.RunProcessors(items[i..], view.key, view.Value(root))
      {
        ghost var mid := root;
        ProcessorStep(items, i, view.key, view.Value(root));
        r := Items.Ok;
        if Items.IsRequirement(items[i]) {
          r := Items.Verify(items[i], view.key, view.Value(root));
        } else if Items.IsModifier(items[i]) {
          r := Modify(view, items[i]);
          DidAgain(was, mid, view, Items.Apply(items[i], view.key, view.Value(mid)), r, root);
        }
        if r.Fail? {
          DidWhole(was, view, all, r, root);
          return;
        }
      }
      NothingLeft(items, view.key, view.Value(root));
      DidWhole(was, view, all, Items.Ok, root);
      return Items.Ok;
    }
  }

  // ------------------------------------------------------------------ steps

  lemma WrittenSelf(root: Json, view: FieldView)
    requires view.Live(root) && view.Mutable()
    ensures root == Written(root, view, view.Value(root))
  {
    DidNothing(root, view);
  }

  /** One more step through the view, from a document that differs from `was` only there. */
  lemma DidAgain(was: Json, mid: Json, view: FieldView, out: (Items.Result, View), r: Items.Result, after: Json)
    requires view.Live(was) && view.Live(mid) && view.Mutable() && mid == Written(was, view, view.Value(mid))
    requires Did(mid, view, out, r, after)
    ensures r == out.0 && view.Live(after) && view.Value(after) == out.1
    ensures after == Written(was, view, view.Value(after))
  {
    DidThen(was, view, view.Value(mid), mid, out, r, after);
  }

  lemma DidWhole(was: Json, view: FieldView, all: (Items.Result, View), r: Items.Result, after: Json)
    requires view.Live(was) && view.Live(after) && after == Written(was, view, view.Value(after))
    requires all == (r, view.Value(after))
    ensures Did(was, view, all, r, after)
  {
  }

  lemma NothingLeft(items: seq<Items.Item>, key: string, v: View)
    ensures Items.RunProcessors(items[|items|..], key, v) == (Items.Ok, v)
    ensures Items.ApplyAll(items[|items|..], key, v) == (Items.Ok, v)
  {
  }

  lemma ProcessorStep(items: seq<Items.Item>, i: nat, key: string, v: View)
    requires i < |items|
    ensures var (r, v') := if Items.IsRequirement(items[i]) then (Items.Verify(items[i], key, v), v)
                           else if Items.IsModifier(items[i]) then Items.Apply(items[i], key, v)
                           else (Items.Ok, v);
      Items.RunProcessors(items[i..], key, v)
      == if r.Fail? then (r, v') else Items.RunProcessors(items[i + 1..], key, v')
  {
    assert items[i..][0] == items[i] && items[i..][1..] == items[i + 1..];
  }

  lemma ConditionalStep(inners: seq<Items.Item>, i: nat, key: string, v: View)
    requires i < |inners|
    ensures var (r, v') := if Items.IsModifier(inners[i]) then Items.Apply(inners[i], key, v) else (Items.Ok, v);
      Items.ApplyAll(inners[i..], key, v)
      == if r.Fail? then (r, v') else Items.ApplyAll(inners[i + 1..], key, v')
  {
    assert inners[i..][0] == inners[i] && inners[i..][1..] == inners[i + 1..];
  }

  lemma SectionOf(subs: seq<Items.SubField>, key: string, v: Json)
    requires v.JObject?
    ensures Items.Apply(Items.Section(subs), key, Some(v))
         == (Items.RunSubFields(subs, v).0, Some(Items.RunSubFields(subs, v).1))
  {
  }

  lemma SectionStep(subs: seq<Items.SubField>, i: nat, parent: Json)
    requires i < |subs|
    ensures var (r, child) := Items.RunProcessors(subs[i].items, subs[i].key, Child(parent, subs[i].key));
      var parent' := SetChild(parent, subs[i].key, child);
      Items.RunSubFields(subs[i..], parent)
      == if r.Fail? then (r, parent') else Items.RunSubFields(subs[i + 1..], parent')
  {
    assert subs[i..][0] == subs[i] && subs[i..][1..] == subs[i + 1..];
  }

  lemma NoSubFields(subs: seq<Items.SubField>, v: Json)
    ensures Items.RunSubFields(subs[|subs|..], v) == (Items.Ok, v)
  {
  }

  lemma MutableChild(view: FieldView, root: Json, key: string)
    requires view.Live(root) && view.Mutable()
    ensures view.ChildView(root, key).Mutable() && view.ChildView(root, key).key == key
  {
  }

  /** Running a sub-field's items through a child's view, seen from the section's view. */
  lemma ChildStep(was: Json, mid: Json, view: FieldView, sub: Items.SubField, r: Items.Result, after: Json)
    requires view.Live(was) && view.Live(mid) && view.Mutable() && view.IsObject(mid)
    requires mid == Written(was, view, view.Value(mid))
    requires Did(mid, view.ChildView(mid, sub.key),
                 Items.RunProcessors(sub.items, sub.key, Child(view.Value(mid).value, sub.key)), r, after)
    ensures var (result, child) := Items.RunProcessors(sub.items, sub.key, Child(view.Value(mid).value, sub.key));
      && r == result && view.Live(after) && view.IsObject(after)
      && view.Value(after) == Some(SetChild(view.Value(mid).value, sub.key, child))
      && after == Written(was, view, view.Value(after))
  {
    hide Items.RunProcessors;
    ChildViewSees(view, mid, sub.key);
    var child := Items.RunProcessors(sub.items, sub.key, Child(view.Value(mid).value, sub.key)).1;
    ChildWritten(mid, view, sub.key, child);
    UpdateTwice(was, view.read.value, view.Value(mid).value, view.Value(after).value);
  }

  lemma DidAll(was: Json, view: FieldView, all: (Items.Result, Json), r: Items.Result, after: Json)
    requires view.Live(was) && view.Live(after) && view.Present() && after == Written(was, view, view.Value(after))
    requires all == (r, view.Value(after).value)
    ensures Did(was, view, (all.0, Some(all.1)), r, after)
  {
  }

  /** A step on one element, seen from the array. */
  lemma ElementStep(was: Json, mid: Json, view: FieldView, i: nat, out: (Items.Result, Json), r: Items.Result,
                    after: Json)
    requires view.Live(was) && view.Live(mid) && view.Mutable() && view.IsArray(mid) && i < view.ArraySize(mid)
    requires mid == Written(was, view, view.Value(mid))
    requires Did(mid, view.ElementView(mid, i), (out.0, Some(out.1)), r, after)
    ensures r == out.0 && view.Live(after) && view.IsArray(after)
    ensures view.Value(after).value.elements == view.Value(mid).value.elements[i := out.1]
    ensures after == Written(was, view, view.Value(after))
  {
    ElementWritten(mid, view, i, out.1);
    UpdateTwice(was, view.read.value, view.Value(mid).value, view.Value(after).value);
  }

  lemma OraclesDone(isAccount: string -> bool, was: Json, view: FieldView, r: Items.Result, after: Json)
    requires view.Live(was) && view.IsArray(was) && 0 < view.ArraySize(was) <= 200
    requires view.Live(after) && view.IsArray(after) && after == Written(was, view, view.Value(after))
    requires Items.RewriteOracles(isAccount, view.Value(was).value.elements) == (r, view.Value(after).value.elements)
    ensures Did(was, view, Items.Apply(Items.Modify(Items.OracleIds(isAccount)), view.key, view.Value(was)), r, after)
  {
    OraclesOf(isAccount, view.Value(was).value.elements);
    hide Items.RewriteOracles, Items.RewriteOracle;
  }

  /** The array after `i` good elements: those rewritten, the rest as they were, and the whole
    result determined by what is still to come. */
  ghost predicate Rewritten(isAccount: string -> bool, es: seq<Json>, i: nat, now: seq<Json>) {
    && i <= |es| == |now|
    && now[i..] == es[i..]
    && Items.RewriteOracles(isAccount, es).0 == Items.RewriteOracles(isAccount, es[i..]).0
    && Items.RewriteOracles(isAccount, es).1 == now[..i] + Items.RewriteOracles(isAccount, es[i..]).1
  }

  lemma RewrittenBounds(isAccount: string -> bool, es: seq<Json>, now: seq<Json>)
    ensures Rewritten(isAccount, es, 0, es)
    ensures Rewritten(isAccount, es, |es|, now) ==> Items.RewriteOracles(isAccount, es) == (Items.Ok, now)
  {
    assert es[0..] == es && es[|es|..] == [];
    if |now| == |es| {
      assert now[..|es|] + [] == now;
    }
  }

  lemma OraclesFrom(isAccount: string -> bool, es: seq<Json>, i: nat)
    requires i < |es|
    ensures var (r, e) := Items.RewriteOracle(isAccount, es[i]);
      var (rest, tail) := Items.RewriteOracles(isAccount, es[i + 1..]);
      Items.RewriteOracles(isAccount, es[i..]) == if r.Fail? then (r, [e] + es[i + 1..]) else (rest, [e] + tail)
  {
    hide Items.RewriteOracle;
    assert es[i..][0] == es[i] && es[i..][1..] == es[i + 1..];
  }

  lemma Replaced<T>(now: seq<T>, i: nat, x: T, rest: seq<T>)
    requires i < |now|
    ensures now[i := x][i + 1..] == now[i + 1..] == now[i..][1..] && now[i..][0] == now[i]
    ensures now[..i] + ([x] + rest) == now[i := x][..i + 1] + rest
    ensures now[i := x] == now[i := x][..i + 1] + now[i := x][i + 1..]
  {
    assert now[i := x][..i + 1] == now[..i] + [x];
    assert now[..i] + ([x] + rest) == now[..i] + [x] + rest;
  }

  /** One iteration of the validator's loop. */
  lemma RewrittenStep(isAccount: string -> bool, es: seq<Json>, i: nat, now: seq<Json>)
    requires Rewritten(isAccount, es, i, now) && i < |es|
    ensures var step := Items.RewriteOracle(isAccount, now[i]);
      var next := now[i := step.1];
      if step.0.Fail? then Items.RewriteOracles(isAccount, es) == (step.0, next)
      else Rewritten(isAccount, es, i + 1, next)
  {
    hide Items.RewriteOracle, Items.RewriteOracles;
    var x := Items.RewriteOracle(isAccount, now[i]).1;
    OraclesFrom(isAccount, es, i);
    Replaced(es, i, es[i], []);
    Replaced(now, i, x, es[i + 1..]);
    Replaced(now, i, x, Items.RewriteOracles(isAccount, es[i + 1..]).1);
  }

  lemma OraclesOf(isAccount: string -> bool, es: seq<Json>)
    ensures Items.Rewrite(Items.OracleIds(isAccount), JArray(es))
         == if |es| == 0 || |es| > 200 then (Items.Fail(Items.Status(1, "")), JArray(es))
            else (Items.RewriteOracles(isAccount, es).0, JArray(Items.RewriteOracles(isAccount, es).1))
  {
    hide Items.RewriteOracles, Items.RewriteOracle;
  }
}
