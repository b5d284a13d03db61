/** Normalisation is idempotent: re-parsing a rewritten document succeeds, leaves it unchanged and
  yields the same Input. */
module SpecIdempotence {
  import opened JsonDocument
  import opened SpecItems
  import opened SpecParse
  import opened SpecFrame
  import opened OverridePlan
  import opened Wrappers

  /** Whatever the items accept, they fix. */
  ghost predicate Settles(items: seq<Item>, key: string) {
    forall v: View :: RunProcessors(items, key, v).0.Ok? ==> Fixes(items, key, RunProcessors(items, key, v).1)
  }

  // ------------------------------------------------------------------ chains

  lemma RunOne(item: Item, key: string, v: View)
    ensures RunProcessors([item], key, v) == CallIfProcessor(item, key, v)
  {
    assert [item][1..] == [];
  }

  lemma {:induction false} RunConcat(a: seq<Item>, b: seq<Item>, key: string, v: View)
    ensures var first := RunProcessors(a, key, v);
      RunProcessors(a + b, key, v) == if first.0.Fail? then first else RunProcessors(b, key, first.1)
  {
    if a == [] {
      assert a + b == b;
    } else {
      assert (a + b)[1..] == a[1..] + b;
      var step := CallIfProcessor(a[0], key, v);
      if step.0.Ok? {
        RunConcat(a[1..], b, key, step.1);
      }
    }
  }

  /** A chain settles when its halves do and the first half fixes what the second leaves. */
  lemma SettlesConcat(a: seq<Item>, b: seq<Item>, key: string)
    requires Settles(b, key)
    requires forall v: View ::
      var u := RunProcessors(a, key, v);
      var w := RunProcessors(b, key, u.1);
      u.0.Ok? && w.0.Ok? ==> Fixes(a, key, w.1)
    ensures Settles(a + b, key)
  {
    hide RunProcessors;
    forall v: View | RunProcessors(a + b, key, v).0.Ok?
      ensures Fixes(a + b, key, RunProcessors(a + b, key, v).1)
    {
      RunConcat(a, b, key, v);
      var u := RunProcessors(a, key, v).1;
      RunConcat(a, b, key, RunProcessors(b, key, u).1);
    }
  }

  /** Appending requirements keeps a chain settled. */
  lemma SettlesThenInert(items: seq<Item>, inert: seq<Item>, key: string)
    requires Settles(items, key) && Inert(inert)
    ensures Settles(items + inert, key)
  {
    hide RunProcessors;
    forall v: View | RunProcessors(items + inert, key, v).0.Ok?
      ensures Fixes(items + inert, key, RunProcessors(items + inert, key, v).1)
    {
      RunConcat(items, inert, key, v);
      var u := RunProcessors(items, key, v).1;
      InertKeeps(inert, key, u);
      RunConcat(items, inert, key, u);
    }
  }

  // ------------------------------------------------------------------ built-in modifiers

  /** What the modifiers' types guarantee of their parameters, and an ordered range. */
  predicate WellFormed(m: Modifier) {
    match m
    case ClampInt64(lo, hi) => lo <= hi
    case ClampUint32(lo, hi) => lo <= hi <= MAX_UINT32
    case ClampDouble(lo, hi) => lo <= hi
    case ClampAs(lo, hi, unsigned) => lo <= hi <= MAX_INT64 && (unsigned ==> 0 <= hi)
    case _ => true
  }

  lemma DigitsDoNotRepeat(v: Json)
    ensures StringToNumber(v).0.Ok? ==>
      !StringToNumber(v).1.JString? && (v.JString? ==> IsUint32(StringToNumber(v).1))
  {
  }

  lemma OracleSettles(isAccount: string -> bool, v: Json)
    ensures var (r, v') := RewriteOracle(isAccount, v);
      r.Ok? ==> RewriteOracle(isAccount, v') == (Ok, v')
  {
    var (r, v') := RewriteOracle(isAccount, v);
    if r.Ok? {
      var id := Child(v, "oracle_document_id");
      var (_, id') := StringToNumber(id.value);
      DigitsDoNotRepeat(id.value);
      ChildAfterSet(v, "oracle_document_id", Some(id'), "oracle_document_id");
      ChildAfterSet(v, "oracle_document_id", Some(id'), "account");
      SetSameChild(v', "oracle_document_id");
    }
  }

  lemma {:induction false} OraclesSettle(isAccount: string -> bool, es: seq<Json>)
    ensures var (r, fs) := RewriteOracles(isAccount, es);
      |fs| == |es| && (r.Ok? ==> RewriteOracles(isAccount, fs) == (Ok, fs))
  {
    if es != [] {
      OracleSettles(isAccount, es[0]);
      OraclesSettle(isAccount, es[1..]);
      var (r, fs) := RewriteOracles(isAccount, es);
      if r.Ok? {
        assert fs[1..] == RewriteOracles(isAccount, es[1..]).1;
      }
    }
  }

  lemma LowerSettles(s: string)
    ensures Lower(Lower(s)) == Lower(s)
  {
  }

  /** Every built-in modifier fixes what it produces. */
  lemma RewriteSettles(m: Modifier, v: Json)
    requires WellFormed(m)
    ensures var (r, v') := Rewrite(m, v);
      r.Ok? ==> Rewrite(m, v') == (Ok, v')
  {
    match m
    case ToNumber => DigitsDoNotRepeat(v);
    case ToLower => if v.JString? { LowerSettles(v.s); }
    case OracleIds(isAccount) => if v.JArray? { OraclesSettle(isAccount, v.elements); }
    case _ =>
  }

  lemma ModifierSettles(m: Modifier, key: string)
    requires WellFormed(m)
    ensures Settles([Modify(m)], key)
  {
    hide Rewrite;
    forall v: View | RunProcessors([Modify(m)], key, v).0.Ok?
      ensures Fixes([Modify(m)], key, RunProcessors([Modify(m)], key, v).1)
    {
      RunOne(Modify(m), key, v);
      RunOne(Modify(m), key, Apply(Modify(m), key, v).1);
      if v.Some? {
        RewriteSettles(m, v.value);
      }
    }
  }

  // ------------------------------------------------------------------ nesting

  lemma IfTypeSettles(tag: Tag, items: seq<Item>, key: string)
    requires Settles(items, key)
    ensures Settles([IfType(tag, items)], key)
  {
    var item := IfType(tag, items);
    forall v: View | RunProcessors([item], key, v).0.Ok?
      ensures Fixes([item], key, RunProcessors([item], key, v).1)
    {
      var u := Apply(item, key, v).1;
      RunOne(item, key, v);
      RunOne(item, key, u);
      if v.Some? && Is(tag, v.value) {
        assert Apply(item, key, v) == RunProcessors(items, key, v);
        assert Fixes(items, key, u);
      }
    }
  }

  /** A section settles when its sub-fields do and read different keys. */
  lemma SectionSettles(subs: seq<SubField>, key: string)
    requires forall i :: 0 <= i < |subs| ==> Settles(subs[i].items, subs[i].key)
    requires forall i, j :: 0 <= i < j < |subs| ==> subs[i].key != subs[j].key
    ensures Settles([Section(subs)], key)
  {
    var item := Section(subs);
    forall v: View | RunProcessors([item], key, v).0.Ok?
      ensures Fixes([item], key, RunProcessors([item], key, v).1)
    {
      RunOne(item, key, v);
      RunOne(item, key, Apply(item, key, v).1);
      if v.Some? && v.value.JObject? {
        var final := RunSubFields(subs, v.value).1;
        SubFieldsShape(subs, v.value);
        SubFieldsAgain(subs, v.value, final);
      }
    }
  }

  /** A section touches only the children its sub-fields name. */
  lemma {:induction false} SubFieldsFrame(subs: seq<SubField>, parent: Json, key: string)
    requires forall i :: 0 <= i < |subs| ==> subs[i].key != key
    ensures Child(RunSubFields(subs, parent).1, key) == Child(parent, key)
  {
    if subs != [] {
      var child := RunProcessors(subs[0].items, subs[0].key, Child(parent, subs[0].key)).1;
      ChildAfterSet(parent, subs[0].key, child, key);
      SubFieldsFrame(subs[1..], SetChild(parent, subs[0].key, child), key);
    }
  }

  /** A document that holds every value the sub-fields left is fixed by them. */
  lemma {:induction false} SubFieldsAgain(subs: seq<SubField>, parent: Json, final: Json)
    requires forall i :: 0 <= i < |subs| ==> Settles(subs[i].items, subs[i].key)
    requires forall i, j :: 0 <= i < j < |subs| ==> subs[i].key != subs[j].key
    requires RunSubFields(subs, parent).0.Ok?
    requires forall i :: 0 <= i < |subs| ==>
      Child(final, subs[i].key) == Child(RunSubFields(subs, parent).1, subs[i].key)
    ensures RunSubFields(subs, final) == (Ok, final)
  {
    if subs != [] {
      var SubField(key, items) := subs[0];
      var child := RunProcessors(items, key, Child(parent, key)).1;
      var parent' := SetChild(parent, key, child);
      ProcessorsShape(items, key, Child(parent, key));
      ChildAfterSet(parent, key, child, key);
      SubFieldsFrame(subs[1..], parent', key);
      assert Child(final, key) == child;
      SetSameChild(final, key);
      SubFieldsAgain(subs[1..], parent', final);
    }
  }

  // ------------------------------------------------------------------ specs

  /** Guards only look at which keys are present. */
  lemma {:induction false} SkipsByShape(item: Item, a: Json, b: Json)
    requires SameShape(a, b)
    ensures Skips(item, a) <==> Skips(item, b)
    decreases item
  {
    match item
    case IfAbsent(guardKey) => ShapeKeepsChildren(a, b, guardKey);
    case ServerConditional(_, inners) =>
      forall i | 0 <= i < |inners| ensures Skips(inners[i], a) <==> Skips(inners[i], b) {
        SkipsByShape(inners[i], a, b);
      }
    case _ =>
  }

  lemma SkipsFieldByShape(items: seq<Item>, a: Json, b: Json)
    requires SameShape(a, b)
    ensures SkipsField(items, a) <==> SkipsField(items, b)
  {
    forall i | 0 <= i < |items| ensures Skips(items[i], a) <==> Skips(items[i], b) {
      SkipsByShape(items[i], a, b);
    }
  }

  /** A field run again on a document of the same shape that holds the value it left, or, for a
    selector, the values it read. */
  lemma FieldAgain(f: FieldDef, root: Json, input: Input, final: Json)
    requires ParseField(f, root, input).result.Ok?
    requires SameShape(root, final)
    requires if f.Selects() then ViewsOf(final, f.binding.value.keys) == ViewsOf(root, f.binding.value.keys)
             else var key := SelectedKey(f, root);
               && Settles(f.items, key)
               && Child(final, key) == Child(ParseField(f, root, input).root, key)
    ensures ParseField(f, final, input) == Outcome(Ok, final, ParseField(f, root, input).input)
  {
    hide SkipsField, SameShape, BothSpellings, SelectedKey, ApplyDefaults, RunProcessors, Child, SetChild;
    if !f.Selects() {
      var key := SelectedKey(f, root);
      SelectedKeyByShape(f, root, final);
      SkipsFieldByShape(f.items, root, final);
      SpellingsByShape(f, root, final);
      var v := Child(root, key);
      ProcessorsShape(f.items, key, v);
      ChildAfterSet(root, key, RunProcessors(f.items, key, v).1, key);
      SetSameChild(final, key);
    }
  }

  lemma SpellingsByShape(f: FieldDef, a: Json, b: Json)
    requires SameShape(a, b)
    ensures BothSpellings(f, a) <==> BothSpellings(f, b)
  {
    ShapeKeepsChildren(a, b, f.key);
    if f.alternateKey.Some? {
      ShapeKeepsChildren(a, b, f.alternateKey.value);
    }
  }

  /** The keys a field may read as its own. */
  function Spellings(f: FieldDef): set<string> {
    {f.key} + if f.alternateKey.Some? then {f.alternateKey.value} else {}
  }

  ghost predicate KeysApart(fields: seq<FieldDef>) {
    forall i, j :: 0 <= i < j < |fields| ==> Spellings(fields[i]) !! Spellings(fields[j])
  }

  /** No field may write to `key`. */
  predicate LeavesAlone(f: FieldDef, key: string) {
    f.Selects() || Inert(f.items) || key !in Spellings(f)
  }

  /** No field writes what a selector reads. */
  ghost predicate SelectorsUndisturbed(fields: seq<FieldDef>) {
    forall f, g :: f in fields && g in fields && f.Selects() ==>
      forall key <- f.binding.value.keys :: LeavesAlone(g, key)
  }

  ghost predicate SettlesEverywhere(f: FieldDef) {
    f.Selects() || forall key <- Spellings(f) :: Settles(f.items, key)
  }

  /** A field of a spec finds in `final` what it is to find again. */
  ghost predicate Recalls(f: FieldDef, root: Json, end: Json, final: Json) {
    if f.Selects() then ViewsOf(final, f.binding.value.keys) == ViewsOf(root, f.binding.value.keys)
    else Child(final, SelectedKey(f, root)) == Child(end, SelectedKey(f, root))
  }

  lemma LeftAlone(f: FieldDef, root: Json, input: Input, keys: seq<string>)
    requires forall key <- keys :: LeavesAlone(f, key)
    ensures ViewsOf(ParseField(f, root, input).root, keys) == ViewsOf(root, keys)
  {
    hide ParseField, Child, Inert;
    forall i | 0 <= i < |keys|
      ensures Child(ParseField(f, root, input).root, keys[i]) == Child(root, keys[i])
    {
      assert LeavesAlone(f, keys[i]);
      assert !Writes(f, root, keys[i]) by {
        if !f.Selects() { SelectedIsSpelled(f, root); }
      }
      FieldFrame(f, root, input, keys[i]);
    }
  }

  lemma SelectedIsSpelled(f: FieldDef, root: Json)
    ensures SelectedKey(f, root) in Spellings(f)
  {
  }

  /** What a later field finds again does not depend on where the walk stands. */
  lemma RecallsAfter(f: FieldDef, g: FieldDef, root: Json, input: Input, end: Json, final: Json)
    requires Recalls(g, root, end, final)
    requires g.Selects() ==> forall key <- g.binding.value.keys :: LeavesAlone(f, key)
    ensures Recalls(g, ParseField(f, root, input).root, end, final)
  {
    FieldFrame(f, root, input, "");
    SelectedKeyByShape(g, root, ParseField(f, root, input).root);
    if g.Selects() {
      LeftAlone(f, root, input, g.binding.value.keys);
    }
  }

  lemma {:induction false} FieldsAgain(fields: seq<FieldDef>, root: Json, input: Input, final: Json)
    requires KeysApart(fields) && SelectorsUndisturbed(fields) && forall f <- fields :: SettlesEverywhere(f)
    requires ParseFields(fields, root, input).result.Ok?
    requires SameShape(root, final)
    requires forall f <- fields :: Recalls(f, root, ParseFields(fields, root, input).root, final)
    ensures ParseFields(fields, final, input) == Outcome(Ok, final, ParseFields(fields, root, input).input)
  {
    hide ParseField, SameShape, Settles, LeavesAlone, Inert, SelectedKey, Child;
    if fields != [] {
      var f, rest := fields[0], fields[1..];
      var first := ParseField(f, root, input);
      var key := SelectedKey(f, root);
      assert f in fields && Recalls(f, root, ParseFields(fields, root, input).root, final);
      SelectedIsSpelled(f, root);
      FieldFrame(f, root, input, key);
      RestLeaves(fields, first.root, first.input, key);
      FieldAgain(f, root, input, final);
      ShapeSymmetric(root, first.root);
      ShapeTransitive(first.root, root, final);
      forall g | g in rest
        ensures g in fields && Recalls(g, first.root, ParseFields(fields, root, input).root, final)
      {
        assert g in fields;
        RecallsAfter(f, g, root, input, ParseFields(fields, root, input).root, final);
      }
      FieldsAgain(rest, first.root, first.input, final);
    }
  }

  /** The fields after the first do not touch what it selected. */
  lemma RestLeaves(fields: seq<FieldDef>, root: Json, input: Input, key: string)
    requires fields != [] && KeysApart(fields) && key in Spellings(fields[0])
    ensures Child(ParseFields(fields[1..], root, input).root, key) == Child(root, key)
  {
    forall i | 0 <= i < |fields| - 1 ensures !Writes(fields[1..][i], root, key) {
      SelectedIsSpelled(fields[i + 1], root);
      assert Spellings(fields[0]) !! Spellings(fields[i + 1]);
    }
    ParseFrame(fields[1..], root, input, key);
  }

  lemma {:induction false} ShapeSymmetric(a: Json, b: Json)
    requires SameShape(a, b)
    ensures SameShape(b, a)
  {
    match a
    case JArray(es) =>
      forall i | 0 <= i < |es| ensures SameShape(b.elements[i], es[i]) {
        ShapeSymmetric(es[i], b.elements[i]);
      }
    case JObject(ms) =>
      forall i | 0 <= i < |ms| ensures SameShape(b.members[i].value, ms[i].value) {
        assert ms[i].value < ms[i];
        ShapeSymmetric(ms[i].value, b.members[i].value);
      }
    case _ =>
  }

  /** After the whole walk a selector reads what it read when its turn came. */
  lemma SelectorsRecall(fields: seq<FieldDef>, root: Json, input: Input, f: FieldDef)
    requires SelectorsUndisturbed(fields) && f in fields && f.Selects()
    ensures ViewsOf(ParseFields(fields, root, input).root, f.binding.value.keys) == ViewsOf(root, f.binding.value.keys)
  {
    hide ParseField, Child, Inert;
    var keys := f.binding.value.keys;
    forall i | 0 <= i < |keys|
      ensures Child(ParseFields(fields, root, input).root, keys[i]) == Child(root, keys[i])
    {
      forall j | 0 <= j < FieldsRun(fields, root, input) ensures !Writes(fields[j], root, keys[i]) {
        assert fields[j] in fields && LeavesAlone(fields[j], keys[i]);
        SelectedIsSpelled(fields[j], root);
      }
      ParseFrame(fields, root, input, keys[i]);
    }
  }

  /** Normalisation is idempotent: if a spec of settling fields accepts a document, it accepts the
    rewritten document, leaves it unchanged and builds the same Input from it. */
  lemma ReparseIsStable(spec: seq<FieldDef>, root: Json)
    requires KeysApart(EffectiveFields(spec)) && SelectorsUndisturbed(EffectiveFields(spec))
    requires forall f <- EffectiveFields(spec) :: SettlesEverywhere(f)
    ensures var fields := EffectiveFields(spec);
      var out := ParseFields(fields, root, map[]);
      out.result.Ok? ==> ParseFields(fields, out.root, map[]) == out
  {
    var fields := EffectiveFields(spec);
    var out := ParseFields(fields, root, map[]);
    if out.result.Ok? {
      ParseFrame(fields, root, map[], "");
      forall f | f in fields ensures Recalls(f, root, out.root, out.root) {
        if f.Selects() {
          SelectorsRecall(fields, root, map[], f);
        }
      }
      FieldsAgain(fields, root, map[], out.root);
      AcceptedIsNotThrown(fields, root, map[]);
    }
  }

  lemma {:induction false} AcceptedIsNotThrown(fields: seq<FieldDef>, root: Json, input: Input)
    ensures ParseFields(fields, root, input).result.Ok? ==> !ParseFields(fields, root, input).thrown
  {
    hide ParseField;
    if fields != [] {
      var first := ParseField(fields[0], root, input);
      OnlyFailuresThrow(fields[0], root, input);
      AcceptedIsNotThrown(fields[1..], first.root, first.input);
    }
  }

  /** Without second spellings the walk itself keeps the keys apart. */
  lemma OwnKeysAreApart(spec: seq<FieldDef>)
    requires forall f <- spec :: f.alternateKey.None?
    ensures KeysApart(EffectiveFields(spec))
  {
    var fields, keys := EffectiveFields(spec), Keys(spec);
    forall i, j | 0 <= i < j < |fields|
      ensures Spellings(fields[i]) !! Spellings(fields[j])
    {
      OneSlotPerKey(keys, i, j);
      assert Slots(keys)[i] in Slots(keys) && Slots(keys)[j] in Slots(keys);
      assert fields[i] in spec && fields[j] in spec;
    }
  }
}
