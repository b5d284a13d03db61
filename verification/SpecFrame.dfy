/** What parsing may write: only values under the keys its fields read, and never the document's
  shape. */
module SpecFrame {
  import opened JsonDocument
  import opened SpecItems
  import opened SpecParse
  import opened Wrappers

  /** Presence and shape are kept. */
  ghost predicate SameViewShape(v: View, w: View) {
    (v.Some? <==> w.Some?) && (v.Some? ==> SameShape(v.value, w.value))
  }

  lemma ViewShapeTransitive(u: View, v: View, w: View)
    requires SameViewShape(u, v) && SameViewShape(v, w)
    ensures SameViewShape(u, w)
  {
    if u.Some? {
      ShapeTransitive(u.value, v.value, w.value);
    }
  }

  lemma ViewShapeReflexive(v: View)
    ensures SameViewShape(v, v)
  {
    if v.Some? {
      ShapeReflexive(v.value);
    }
  }

  // ------------------------------------------------------------------ modifiers

  lemma RewriteOracleShape(isAccount: string -> bool, v: Json)
    ensures SameShape(v, RewriteOracle(isAccount, v).1)
  {
    ShapeReflexive(v);
    var id := Child(v, "oracle_document_id");
    if id.Some? {
      ShapeReflexive(id.value);
      ShapeOfSet(v, "oracle_document_id", Some(StringToNumber(id.value).1));
    }
  }

  lemma {:induction false} RewriteOraclesShape(isAccount: string -> bool, es: seq<Json>)
    ensures var fs := RewriteOracles(isAccount, es).1;
      |es| == |fs| && forall i :: 0 <= i < |es| ==> SameShape(es[i], fs[i])
  {
    if es != [] {
      RewriteOracleShape(isAccount, es[0]);
      RewriteOraclesShape(isAccount, es[1..]);
      forall i | 1 <= i < |es| ensures SameShape(es[i], es[i]) {
        ShapeReflexive(es[i]);
      }
      var fs := RewriteOracles(isAccount, es).1;
      forall i | 0 <= i < |es| ensures SameShape(es[i], fs[i]) {
        if i > 0 {
          assert es[i] == es[1..][i - 1] && fs[i] == fs[1..][i - 1];
        }
      }
    }
  }

  /** No built-in modifier adds or removes a key or an element at any depth. */
  lemma RewriteShape(m: Modifier, v: Json)
    ensures SameShape(v, Rewrite(m, v).1)
  {
    ShapeReflexive(v);
    if m.OracleIds? && v.JArray? {
      RewriteOraclesShape(m.isAccount, v.elements);
    }
  }

  // ------------------------------------------------------------------ items

  lemma {:induction false} ApplyShape(item: Item, key: string, v: View)
    ensures SameViewShape(v, Apply(item, key, v).1)
    decreases item, 1
  {
    ViewShapeReflexive(v);
    match item
    case Modify(m) => if v.Some? { RewriteShape(m, v.value); }
    case Section(subs) => if v.Some? { SubFieldsShape(subs, v.value); }
    case IfType(_, items) => ProcessorsShape(items, key, v);
    case WithCustomError(w, _) => ApplyShape(w, key, v);
    case ServerConditional(_, inners) => ApplyAllShape(inners, key, v);
    case _ =>
  }

  lemma {:induction false} ApplyAllShape(items: seq<Item>, key: string, v: View)
    ensures SameViewShape(v, ApplyAll(items, key, v).1)
    decreases items, 0
  {
    ViewShapeReflexive(v);
    if items != [] {
      var v' := if IsModifier(items[0]) then Apply(items[0], key, v).1 else v;
      ApplyShape(items[0], key, v);
      ApplyAllShape(items[1..], key, v');
      ViewShapeTransitive(v, v', ApplyAll(items[1..], key, v').1);
    }
  }

  /** Running a field's items leaves it present or absent as it was, with its shape. */
  lemma {:induction false} ProcessorsShape(items: seq<Item>, key: string, v: View)
    ensures SameViewShape(v, RunProcessors(items, key, v).1)
    decreases items, 0
  {
    ViewShapeReflexive(v);
    if items != [] {
      ApplyShape(items[0], key, v);
      var v' := CallIfProcessor(items[0], key, v).1;
      ProcessorsShape(items[1..], key, v');
      ViewShapeTransitive(v, v', RunProcessors(items[1..], key, v').1);
    }
  }

  lemma {:induction false} SubFieldsShape(subs: seq<SubField>, parent: Json)
    ensures SameShape(parent, RunSubFields(subs, parent).1)
    decreases subs, 0
  {
    ShapeReflexive(parent);
    if subs != [] {
      var SubField(key, items) := subs[0];
      var child := Child(parent, key);
      ProcessorsShape(items, key, child);
      var child' := RunProcessors(items, key, child).1;
      ShapeOfSet(parent, key, child');
      var parent' := SetChild(parent, key, child');
      SubFieldsShape(subs[1..], parent');
      ShapeTransitive(parent, parent', RunSubFields(subs[1..], parent').1);
    }
  }

  // ------------------------------------------------------------------ items that only read

  /** Running the items on a value keeps it and succeeds. */
  predicate Fixes(items: seq<Item>, key: string, v: View) {
    RunProcessors(items, key, v) == (Ok, v)
  }

  /** Items that never write: requirements, checks, guards and defaults. */
  predicate Inert(items: seq<Item>) {
    forall i :: 0 <= i < |items| ==> IsRequirement(items[i]) || !IsModifier(items[i])
  }

  lemma {:induction false} InertKeeps(items: seq<Item>, key: string, v: View)
    requires Inert(items)
    ensures RunProcessors(items, key, v).1 == v
    ensures RunProcessors(items, key, v).0.Ok? ==> Fixes(items, key, v)
  {
    if items != [] {
      InertKeeps(items[1..], key, v);
    }
  }

  // ------------------------------------------------------------------ fields

  /** Which spelling a field reads depends on the document's keys only. */
  lemma SelectedKeyByShape(f: FieldDef, a: Json, b: Json)
    requires SameShape(a, b)
    ensures SelectedKey(f, a) == SelectedKey(f, b)
  {
    if f.alternateKey.Some? {
      ShapeKeepsChildren(a, b, f.alternateKey.value);
    }
  }

  /** A field that may write to the child under `key`. */
  predicate Writes(f: FieldDef, root: Json, key: string) {
    !f.Selects() && SelectedKey(f, root) == key && !Inert(f.items)
  }

  /** One field writes at most the child it selected, and only if it has a modifier; the document
    keeps its shape. */
  lemma FieldFrame(f: FieldDef, root: Json, input: Input, key: string)
    ensures var root' := ParseField(f, root, input).root;
      && SameShape(root, root')
      && (!Writes(f, root, key) ==> Child(root', key) == Child(root, key))
  {
    if f.Selects() {
      ShapeReflexive(root);
    } else {
      ItemsFrame(f, root, input, key);
    }
  }

  lemma ItemsFrame(f: FieldDef, root: Json, input: Input, key: string)
    requires !f.Selects()
    ensures var root' := ParseField(f, root, input).root;
      && SameShape(root, root')
      && (!Writes(f, root, key) ==> Child(root', key) == Child(root, key))
  {
    hide RunProcessors, SameShape, SkipsField, ApplyDefaults, Inert, SelectedKey, BothSpellings;
    ShapeReflexive(root);
    var selected := SelectedKey(f, root);
    var child := Child(root, selected);
    ProcessorsShape(f.items, selected, child);
    if Inert(f.items) {
      InertKeeps(f.items, selected, child);
    }
    var child' := RunProcessors(f.items, selected, child).1;
    ShapeOfSet(root, selected, child');
    ChildAfterSet(root, selected, child', key);
  }

  lemma WritesByShape(f: FieldDef, a: Json, b: Json, key: string)
    requires SameShape(a, b)
    ensures Writes(f, a, key) <==> Writes(f, b, key)
  {
    SelectedKeyByShape(f, a, b);
  }

  /** How many fields a walk runs: all of them, or up to and with the first that fails. */
  function FieldsRun(fields: seq<FieldDef>, root: Json, input: Input): (n: nat)
    ensures n <= |fields|
    ensures ParseFields(fields, root, input).result.Ok? ==> n == |fields|
    ensures ParseFields(fields, root, input).result.Fail? ==> n > 0
    ensures ParseFields(fields, root, input) == ParseFields(fields[..n], root, input)
  {
    if fields == [] then 0
    else
      var first := ParseField(fields[0], root, input);
      if first.result.Fail? then
        assert fields[..1] == [fields[0]];
        1
      else
        var n := 1 + FieldsRun(fields[1..], first.root, first.input);
        assert fields[..n][1..] == fields[1..][..n - 1];
        n
  }

  /** The document keeps every key and array length at every depth, and its children that no reached
    field writes are untouched: fields after the first failure write nothing. */
  lemma {:induction false} ParseFrame(fields: seq<FieldDef>, root: Json, input: Input, key: string)
    ensures var root' := ParseFields(fields, root, input).root;
      && SameShape(root, root')
      && ((forall i :: 0 <= i < FieldsRun(fields, root, input) ==> !Writes(fields[i], root, key))
          ==> Child(root', key) == Child(root, key))
  {
    hide ParseField, Writes;
    ShapeReflexive(root);
    if fields != [] {
      var first := ParseField(fields[0], root, input);
      FieldFrame(fields[0], root, input, key);
      if first.result.Ok? {
        ParseFrame(fields[1..], first.root, first.input, key);
        ShapeTransitive(root, first.root, ParseFields(fields, root, input).root);
        var n := FieldsRun(fields, root, input);
        if forall i :: 0 <= i < n ==> !Writes(fields[i], root, key) {
          forall i | 0 <= i < n - 1 ensures !Writes(fields[1..][i], first.root, key) {
            assert fields[1..][i] == fields[i + 1];
            WritesByShape(fields[i + 1], root, first.root, key);
          }
        }
      }
    }
  }
}
