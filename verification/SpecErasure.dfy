/** Removing every custom error from a spec changes nothing but the statuses it reports. */
module SpecErasure {
  import opened JsonDocument
  import opened SpecFrame
  import opened SpecItems
  import opened SpecParse
  import opened Wrappers

  // ------------------------------------------------------------------ erasing wrappers

  function Erase(item: Item): Item
    decreases item, 1
  {
    match item
    case WithCustomError(w, _) => Erase(w)
    case Section(subs) => Section(EraseSubs(subs))
    case IfType(tag, items) => IfType(tag, EraseAll(items))
    case ServerConditional(active, inners) => ServerConditional(active, EraseAll(inners))
    case _ => item
  }

  function EraseAll(items: seq<Item>): (erased: seq<Item>)
    ensures |erased| == |items|
    ensures forall i :: 0 <= i < |items| ==> erased[i] == Erase(items[i])
    decreases items, 0
  {
    if items == [] then [] else [Erase(items[0])] + EraseAll(items[1..])
  }

  function EraseSubs(subs: seq<SubField>): (erased: seq<SubField>)
    ensures |erased| == |subs|
    decreases subs, 0
  {
    if subs == [] then []
    else [SubField(subs[0].key, EraseAll(subs[0].items))] + EraseSubs(subs[1..])
  }

  function EraseField(f: FieldDef): FieldDef {
    f.(items := EraseAll(f.items))
  }

  function EraseFields(fields: seq<FieldDef>): (erased: seq<FieldDef>)
    ensures |erased| == |fields|
    ensures forall i :: 0 <= i < |fields| ==> erased[i] == EraseField(fields[i])
  {
    if fields == [] then [] else [EraseField(fields[0])] + EraseFields(fields[1..])
  }

  // ------------------------------------------------------------------ wrappers that hide no guard

  /** No guard is hidden under a wrapper, where it would never be asked. */
  predicate NoHiddenGuard(item: Item)
    decreases item, 1
  {
    match item
    case WithCustomError(w, _) => NoHiddenGuard(w) && !IsGuard(Erase(w))
    case ServerConditional(_, inners) => NoHiddenGuards(inners)
    case _ => true
  }

  predicate NoHiddenGuards(items: seq<Item>)
    ensures NoHiddenGuards(items) <==> forall i :: 0 <= i < |items| ==> NoHiddenGuard(items[i])
    decreases items, 0
  {
    if items == [] then true else NoHiddenGuard(items[0]) && NoHiddenGuards(items[1..])
  }

  // ------------------------------------------------------------------ classification

  lemma {:induction false} EraseKeepsKind(item: Item)
    ensures IsRequirement(Erase(item)) <==> IsRequirement(item)
    ensures IsModifier(Erase(item)) <==> IsModifier(item)
    decreases item
  {
    match item
    case WithCustomError(w, _) => EraseKeepsKind(w);
    case ServerConditional(_, inners) =>
      forall i | 0 <= i < |inners|
        ensures IsRequirement(EraseAll(inners)[i]) <==> IsRequirement(inners[i])
        ensures IsModifier(EraseAll(inners)[i]) <==> IsModifier(inners[i])
      {
        EraseKeepsKind(inners[i]);
      }
    case _ =>
  }

  lemma {:induction false} EraseKeepsGuard(item: Item, root: Json)
    requires NoHiddenGuard(item)
    ensures IsGuard(Erase(item)) <==> IsGuard(item)
    ensures IsGuard(item) ==> (Skips(Erase(item), root) <==> Skips(item, root))
    decreases item
  {
    match item
    case ServerConditional(_, inners) =>
      forall i | 0 <= i < |inners|
        ensures IsGuard(EraseAll(inners)[i]) <==> IsGuard(inners[i])
        ensures IsGuard(inners[i]) ==> (Skips(EraseAll(inners)[i], root) <==> Skips(inners[i], root))
      {
        EraseKeepsGuard(inners[i], root);
      }
    case _ =>
  }

  /** A guard that skips still skips once erased: erasing only brings guards to light. */
  lemma {:induction false} GuardSurvives(item: Item, root: Json)
    requires IsGuard(item) && Skips(item, root)
    ensures IsGuard(Erase(item)) && Skips(Erase(item), root)
    decreases item
  {
    if item.ServerConditional? {
      var i :| 0 <= i < |item.inners| && IsGuard(item.inners[i]) && Skips(item.inners[i], root);
      GuardSurvives(item.inners[i], root);
      assert EraseAll(item.inners)[i] == Erase(item.inners[i]);
    }
  }

  lemma SkipsSurvive(items: seq<Item>, root: Json)
    ensures SkipsField(items, root) ==> SkipsField(EraseAll(items), root)
  {
    if SkipsField(items, root) {
      var i :| 0 <= i < |items| && IsGuard(items[i]) && Skips(items[i], root);
      GuardSurvives(items[i], root);
      assert EraseAll(items)[i] == Erase(items[i]);
    }
  }

  // ------------------------------------------------------------------ results up to the status

  /** Both succeed or both fail. */
  predicate Agree(a: Result, b: Result) {
    a.Ok? <==> b.Ok?
  }

  lemma {:induction false} EraseVerify(item: Item, key: string, v: View)
    ensures Agree(Verify(Erase(item), key, v), Verify(item, key, v))
    decreases item, 1
  {
    match item
    case WithCustomError(w, _) => EraseVerify(w, key, v);
    case ServerConditional(_, inners) => EraseVerifyAll(inners, key, v);
    case _ =>
  }

  lemma {:induction false} EraseVerifyAll(items: seq<Item>, key: string, v: View)
    ensures Agree(VerifyAll(EraseAll(items), key, v), VerifyAll(items, key, v))
    decreases items, 0
  {
    if items != [] {
      EraseKeepsKind(items[0]);
      EraseVerify(items[0], key, v);
      EraseVerifyAll(items[1..], key, v);
      assert EraseAll(items)[1..] == EraseAll(items[1..]);
    }
  }

  /** Erasing keeps an item's acceptance and the value it leaves, also when it fails. */
  lemma {:induction false} EraseApply(item: Item, key: string, v: View)
    ensures Agree(Apply(Erase(item), key, v).0, Apply(item, key, v).0)
    ensures Apply(Erase(item), key, v).1 == Apply(item, key, v).1
    decreases item, 1
  {
    match item
    case Section(subs) => if v.Some? { EraseSubFields(subs, v.value); }
    case IfType(_, items) => EraseProcessors(items, key, v);
    case WithCustomError(w, _) => EraseApply(w, key, v);
    case ServerConditional(_, inners) => EraseApplyAll(inners, key, v);
    case _ =>
  }

  lemma {:induction false} EraseApplyAll(items: seq<Item>, key: string, v: View)
    ensures Agree(ApplyAll(EraseAll(items), key, v).0, ApplyAll(items, key, v).0)
    ensures ApplyAll(EraseAll(items), key, v).1 == ApplyAll(items, key, v).1
    decreases items, 0
  {
    if items != [] {
      EraseKeepsKind(items[0]);
      EraseApply(items[0], key, v);
      var v' := if IsModifier(items[0]) then Apply(items[0], key, v).1 else v;
      EraseApplyAll(items[1..], key, v');
      assert EraseAll(items)[1..] == EraseAll(items[1..]);
    }
  }

  lemma {:induction false} EraseProcessors(items: seq<Item>, key: string, v: View)
    ensures Agree(RunProcessors(EraseAll(items), key, v).0, RunProcessors(items, key, v).0)
    ensures RunProcessors(EraseAll(items), key, v).1 == RunProcessors(items, key, v).1
    decreases items, 0
  {
    if items != [] {
      EraseKeepsKind(items[0]);
      EraseVerify(items[0], key, v);
      EraseApply(items[0], key, v);
      EraseProcessors(items[1..], key, CallIfProcessor(items[0], key, v).1);
      assert EraseAll(items)[1..] == EraseAll(items[1..]);
    }
  }

  lemma {:induction false} EraseSubFields(subs: seq<SubField>, parent: Json)
    ensures Agree(RunSubFields(EraseSubs(subs), parent).0, RunSubFields(subs, parent).0)
    ensures RunSubFields(EraseSubs(subs), parent).1 == RunSubFields(subs, parent).1
    decreases subs, 0
  {
    if subs != [] {
      var SubField(key, items) := subs[0];
      EraseProcessors(items, key, Child(parent, key));
      var child := RunProcessors(items, key, Child(parent, key)).1;
      EraseSubFields(subs[1..], SetChild(parent, key, child));
      assert EraseSubs(subs)[1..] == EraseSubs(subs[1..]);
    }
  }

  // ------------------------------------------------------------------ specs

  lemma {:induction false} EraseDefaults(items: seq<Item>, member: nat, input: Input)
    requires forall i :: 0 <= i < |items| && items[i].WithCustomError? ==>
      IsRequirement(items[i]) || IsModifier(items[i])
    ensures ApplyDefaults(EraseAll(items), member, input) == ApplyDefaults(items, member, input)
  {
    if items != [] {
      EraseKeepsKind(items[0]);
      var input' := if items[0].Default? then input[member := items[0].value] else input;
      EraseDefaults(items[1..], member, input');
      assert EraseAll(items)[1..] == EraseAll(items[1..]);
    }
  }

  lemma EraseSkips(items: seq<Item>, root: Json)
    requires NoHiddenGuards(items)
    ensures SkipsField(EraseAll(items), root) <==> SkipsField(items, root)
  {
    forall i | 0 <= i < |items|
      ensures IsGuard(EraseAll(items)[i]) <==> IsGuard(items[i])
      ensures IsGuard(items[i]) ==> (Skips(EraseAll(items)[i], root) <==> Skips(items[i], root))
    {
      EraseKeepsGuard(items[i], root);
    }
  }

  /** Only requirements and modifiers can be wrapped. */
  predicate WrapsProcessors(f: FieldDef) {
    forall i :: 0 <= i < |f.items| && f.items[i].WithCustomError? ==>
      IsRequirement(f.items[i]) || IsModifier(f.items[i])
  }

  /** Erasure cannot bring to light a guard that was never asked. */
  predicate WellWrapped(f: FieldDef) {
    NoHiddenGuards(f.items) && WrapsProcessors(f)
  }

  ghost predicate SameButStatus(a: Outcome, b: Outcome) {
    Agree(a.result, b.result) && a.root == b.root && a.input == b.input && a.thrown == b.thrown
  }

  /** When erasing a field's wrappers cannot be told from its outcome: neither spelling is chosen, the
    guards decide alike, or there is nothing to read, nothing to default to and nothing to complain
    about. */
  ghost predicate FieldErases(f: FieldDef, root: Json) {
    || !f.Converts()
    || BothSpellings(f, root)
    || (SkipsField(f.items, root) <==> SkipsField(EraseAll(f.items), root))
    || (&& Child(root, SelectedKey(f, root)).None?
        && LastDefault(f.items).None?
        && RunProcessors(f.items, SelectedKey(f, root), None).0.Ok?)
  }

  /** Alike guards: the outcome is the same. */
  lemma EraseParseField(f: FieldDef, root: Json, input: Input)
    requires WrapsProcessors(f)
    requires f.Converts() ==> (SkipsField(f.items, root) <==> SkipsField(EraseAll(f.items), root))
    ensures SameButStatus(ParseField(EraseField(f), root, input), ParseField(f, root, input))
  {
    hide SkipsField, RunProcessors, EraseAll, ApplyDefaults, IsRequirement, IsModifier, BothSpellings;
    assert BothSpellings(EraseField(f), root) == BothSpellings(f, root) by { SameSpellings(f, root); }
    assert SelectedKey(EraseField(f), root) == SelectedKey(f, root);
    if !f.Selects() {
      var key := SelectedKey(f, root);
      EraseProcessors(f.items, key, Child(root, key));
      if f.Converts() {
        EraseDefaults(f.items, f.binding.value.member, input);
      }
    }
  }

  lemma SameSpellings(f: FieldDef, root: Json)
    ensures BothSpellings(EraseField(f), root) == BothSpellings(f, root)
  {
  }

  /** A field that only its hidden guard would skip, and what it then does. */
  lemma UnskippedField(f: FieldDef, root: Json, input: Input)
    requires f.Converts() && f.binding.value.member !in input
    requires !BothSpellings(f, root) && !SkipsField(f.items, root)
    ensures var key := SelectedKey(f, root);
      SameButStatus(Outcome(Ok, root, input), ParseField(f, root, input))
      <==> (&& Child(root, key).None?
            && LastDefault(f.items).None?
            && RunProcessors(f.items, key, None).0.Ok?)
  {
    hide SkipsField, RunProcessors, ApplyDefaults, LastDefault, BothSpellings, SelectedKey, SameShape;
    var key := SelectedKey(f, root);
    ProcessorsShape(f.items, key, Child(root, key));
    LastDefaultStays(f.items, f.binding.value.member, input);
  }

  /** Erasing a field's wrappers keeps its outcome exactly when `FieldErases` says so, for a member
    that is not filled yet. */
  lemma FieldErasesIff(f: FieldDef, root: Json, input: Input)
    requires WrapsProcessors(f) && (f.Converts() ==> f.binding.value.member !in input)
    ensures SameButStatus(ParseField(EraseField(f), root, input), ParseField(f, root, input))
      <==> FieldErases(f, root)
  {
    hide SkipsField, RunProcessors, LastDefault, WrapsProcessors, SelectedKey;
    if !f.Converts() || (SkipsField(f.items, root) <==> SkipsField(EraseAll(f.items), root)) {
      EraseParseField(f, root, input);
    } else {
      SkipsSurvive(f.items, root);
      SameSpellings(f, root);
      if !BothSpellings(f, root) {
        UnskippedField(f, root, input);
      }
    }
  }

  // ------------------------------------------------------------------ whole specs

  /** Every field the walk reaches erases at the document it finds. */
  ghost predicate Erases(fields: seq<FieldDef>, root: Json, input: Input) {
    fields == []
    || (FieldErases(fields[0], root)
        && var first := ParseField(fields[0], root, input);
           first.result.Ok? ==> Erases(fields[1..], first.root, first.input))
  }

  /** No two fields fill one member, and none of the members is filled yet. */
  ghost predicate MembersFresh(fields: seq<FieldDef>, input: Input) {
    && (forall i :: 0 <= i < |fields| && fields[i].binding.Some? ==> fields[i].binding.value.member !in input)
    && (forall i, j :: 0 <= i < j < |fields| && fields[i].binding.Some? && fields[j].binding.Some? ==>
          fields[i].binding.value.member != fields[j].binding.value.member)
  }

  lemma {:induction false} DefaultsFillOne(items: seq<Item>, member: nat, input: Input)
    ensures ApplyDefaults(items, member, input).Keys <= input.Keys + {member}
  {
    if items != [] {
      DefaultsFillOne(items[1..], member, if items[0].Default? then input[member := items[0].value] else input);
    }
  }

  lemma FieldFillsOne(f: FieldDef, root: Json, input: Input)
    ensures ParseField(f, root, input).input.Keys
      <= input.Keys + if f.binding.Some? then {f.binding.value.member} else {}
  {
    hide SkipsField, RunProcessors, ApplyDefaults, BothSpellings;
    if f.Converts() {
      DefaultsFillOne(f.items, f.binding.value.member, input);
    }
  }

  lemma MembersStayFresh(fields: seq<FieldDef>, root: Json, input: Input)
    requires fields != [] && MembersFresh(fields, input)
    ensures MembersFresh(fields[1..], ParseField(fields[0], root, input).input)
  {
    FieldFillsOne(fields[0], root, input);
    var input' := ParseField(fields[0], root, input).input;
    forall i | 0 <= i < |fields| - 1 && fields[1..][i].binding.Some?
      ensures fields[1..][i].binding.value.member !in input'
    {
      assert fields[1..][i] == fields[i + 1];
    }
  }

  /** As far as the first `n` fields go, the erased spec behaves like the original. */
  ghost predicate AgreeAfter(fields: seq<FieldDef>, n: nat, root: Json, input: Input)
    requires n <= |fields|
  {
    SameButStatus(ParseFields(EraseFields(fields)[..n], root, input), ParseFields(fields[..n], root, input))
  }

  lemma AgreeAfterMore(fields: seq<FieldDef>, n: nat, root: Json, input: Input)
    requires 0 < n <= |fields|
    requires SameButStatus(ParseField(EraseField(fields[0]), root, input), ParseField(fields[0], root, input))
    ensures var first := ParseField(fields[0], root, input);
      AgreeAfter(fields, n, root, input)
      <==> (first.result.Ok? ==> AgreeAfter(fields[1..], n - 1, first.root, first.input))
  {
    hide ParseField;
    assert fields[..n][1..] == fields[1..][..n - 1];
    assert EraseFields(fields)[..n][1..] == EraseFields(fields[1..])[..n - 1];
    assert fields[..n][0] == fields[0] && EraseFields(fields)[..n][0] == EraseField(fields[0]);
  }

  lemma AgreeAfterOne(fields: seq<FieldDef>, root: Json, input: Input)
    requires fields != []
    ensures AgreeAfter(fields, 1, root, input)
      <==> SameButStatus(ParseField(EraseField(fields[0]), root, input), ParseField(fields[0], root, input))
  {
    hide ParseField;
    assert fields[..1] == [fields[0]] && EraseFields(fields)[..1] == [EraseField(fields[0])];
    ParseOne(fields[0], root, input);
    ParseOne(EraseField(fields[0]), root, input);
  }

  /** The exact condition for a whole spec: the erased one agrees with the original after any number
    of fields if and only if every field that is reached erases. */
  lemma {:induction false} ErasesIff(fields: seq<FieldDef>, root: Json, input: Input)
    requires MembersFresh(fields, input) && forall f <- fields :: WrapsProcessors(f)
    ensures Erases(fields, root, input)
      <==> forall n :: 0 <= n <= |fields| ==> AgreeAfter(fields, n, root, input)
  {
    hide ParseField, FieldErases, SameButStatus, WrapsProcessors, AgreeAfter;
    AgreeAtStart(fields, root, input);
    if fields != [] {
      var f, rest := fields[0], fields[1..];
      var first := ParseField(f, root, input);
      assert f in fields;
      FieldErasesIff(f, root, input);
      AgreeAfterOne(fields, root, input);
      MembersStayFresh(fields, root, input);
      assert forall g <- rest :: g in fields;
      if FieldErases(f, root) {
        forall n | 0 < n <= |fields|
          ensures AgreeAfter(fields, n, root, input)
            <==> (first.result.Ok? ==> AgreeAfter(rest, n - 1, first.root, first.input))
        {
          AgreeAfterMore(fields, n, root, input);
        }
        if first.result.Ok? {
          ErasesIff(rest, first.root, first.input);
          forall m | 0 <= m <= |rest|
            ensures AgreeAfter(rest, m, first.root, first.input) <==> AgreeAfter(fields, m + 1, root, input)
          {
          }
        }
      }
    }
  }

  lemma AgreeAtStart(fields: seq<FieldDef>, root: Json, input: Input)
    ensures AgreeAfter(fields, 0, root, input)
  {
  }

  lemma {:induction false} FieldsErase(fields: seq<FieldDef>, root: Json, input: Input)
    requires forall f <- fields :: WellWrapped(f)
    ensures SameButStatus(ParseFields(EraseFields(fields), root, input), ParseFields(fields, root, input))
  {
    hide ParseField;
    if fields != [] {
      var first := ParseField(fields[0], root, input);
      assert fields[0] in fields;
      EraseSkips(fields[0].items, root);
      EraseParseField(fields[0], root, input);
      assert EraseFields(fields)[1..] == EraseFields(fields[1..]);
      if first.result.Ok? {
        assert forall f <- fields[1..] :: f in fields;
        FieldsErase(fields[1..], first.root, first.input);
      }
    }
  }

  /** Erasing the wrappers changes no key, so the same fields win. */
  lemma EffectiveFieldsErase(spec: seq<FieldDef>)
    ensures EffectiveFields(EraseFields(spec)) == EraseFields(EffectiveFields(spec))
    ensures forall f <- EffectiveFields(spec) :: f in spec
  {
    hide EraseFields;
    assert Keys(EraseFields(spec)) == Keys(spec);
    forall i | 0 <= i < |EffectiveFields(spec)| ensures EffectiveFields(spec)[i] in spec {
      EffectiveInRange(Keys(spec), i);
    }
  }

  /** Error wrappers erase: acceptance, the rewritten document (also at the failing point) and the
    Input are those of the spec without them, for every document, when no wrapper hides a guard. */
  lemma WrappersErase(spec: seq<FieldDef>, root: Json, input: Input)
    requires forall f <- spec :: WellWrapped(f)
    ensures SameButStatus(ParseFields(EffectiveFields(EraseFields(spec)), root, input),
                          ParseFields(EffectiveFields(spec), root, input))
  {
    hide *;
    EffectiveFieldsErase(spec);
    FieldsErase(EffectiveFields(spec), root, input);
  }

  /** A guard below a wrapper is never asked, so erasing it can skip a field that used to fail. */
  lemma HiddenGuardShows(r: Item, status: Status, binding: Binding, root: Json, input: Input)
    requires r.Requirement? && r.verify("key", Child(root, "key")).Fail?
    requires binding.Binding? && binding.member !in input
    ensures var inner := ServerConditional(true, [r, Never]);
      var f := FieldDef("key", [WithCustomError(inner, status)], Some(binding), None);
      !SameButStatus(ParseField(EraseField(f), root, input), ParseField(f, root, input))
  {
    var inners := [r, Never];
    var inner := ServerConditional(true, inners);
    var items := [WithCustomError(inner, status)];
    var f := FieldDef("key", items, Some(binding), None);
    assert IsRequirement(inners[0]) && IsRequirement(inner) && IsRequirement(items[0]);
    HiddenGuard(inners, status, root);
    var v := Child(root, "key");
    assert VerifyAll(inners, "key", v).Fail?;
    assert Verify(inner, "key", v).Fail? && Verify(items[0], "key", v).Fail?;
    assert RunProcessors(items, "key", v).0.Fail?;
    assert items == [WithCustomError(inner, status)];
    hide ParseField, SkipsField, RunProcessors, EraseAll, Verify;
    FieldErasesIff(f, root, input);
  }

  lemma HiddenGuard(inners: seq<Item>, status: Status, root: Json)
    requires |inners| == 2 && inners[0].Requirement? && inners[1] == Never
    ensures var items := [WithCustomError(ServerConditional(true, inners), status)];
      !SkipsField(items, root) && SkipsField(EraseAll(items), root)
  {
    var inner := ServerConditional(true, inners);
    var items := [WithCustomError(inner, status)];
    assert EraseAll(inners) == inners;
    assert Erase(inner) == inner && Erase(items[0]) == inner;
    assert EraseAll(items)[0] == inner;
    assert IsGuard(inners[1]) && Skips(inners[1], root);
    assert IsGuard(EraseAll(items)[0]) && Skips(EraseAll(items)[0], root);
    assert !IsGuard(items[0]);
  }
}
