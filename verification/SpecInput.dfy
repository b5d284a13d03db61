/** What a successful parse puts into the Input, read off the rewritten document. */
module SpecInput {
  import opened JsonDocument
  import opened SpecItems
  import opened SpecParse
  import opened SpecFrame
  import opened SpecIdempotence
  import opened Wrappers

  /** What the Input holds for a member. */
  function Held(input: Input, member: nat): Option<Value> {
    if member in input then Some(input[member]) else None
  }

  // ------------------------------------------------------------------ the two spellings

  /** A field given under its second spelling alone is the field of that key; without it, the field of
    its own key; under both it is refused. */
  lemma SpellingLaw(f: FieldDef, root: Json, input: Input)
    requires !f.Selects() && f.alternateKey.Some?
    ensures var other, own := Child(root, f.alternateKey.value), Child(root, f.key);
      ParseField(f, root, input)
      == if other.None? then ParseField(f.(alternateKey := None), root, input)
         else if own.None? then ParseField(f.(key := f.alternateKey.value, alternateKey := None), root, input)
         else Outcome(Fail(Status(0, "Too many fields provided.")), root, input)
  {
    hide RunProcessors, SkipsField, ApplyDefaults, Child, SetChild;
  }

  /** A field of one spelling reads the child under its key and no other. */
  lemma OwnSpelling(f: FieldDef, root: Json, input: Input)
    requires !f.Selects() && f.alternateKey.None? && (f.binding.Some? ==> !SkipsField(f.items, root))
    ensures var (r, v) := RunProcessors(f.items, f.key, Child(root, f.key));
      var out := ParseField(f, root, input);
      && out.root == SetChild(root, f.key, v)
      && (r.Fail? ==> out == Outcome(r, out.root, input))
      && (f.Converts() && r.Ok? && v.Some? && f.binding.value.convert(f.key, v.value).Converted? ==>
            && out.result.Ok?
            && out.input == input[f.binding.value.member := f.binding.value.convert(f.key, v.value).value])
  {
    hide RunProcessors, SkipsField, ApplyDefaults, Child, SetChild;
  }

  // ------------------------------------------------------------------ guards

  /** A bound field with a guard among its items does nothing while the guard is shut, and otherwise does
    what it does without the guard. `ifAbsent` is shut while its key is present, `never` always, and a
    guard for one server only on that server. */
  lemma GuardLaw(f: FieldDef, a: seq<Item>, guard: Item, b: seq<Item>, root: Json, input: Input)
    requires f.Converts() && !BothSpellings(f, root)
    ensures var open := ParseField(f.(items := a + b), root, input);
      var shut := Outcome(Ok, root, input);
      && (guard.IfAbsent? ==>
            ParseField(f.(items := a + [guard] + b), root, input)
            == if Child(root, guard.guardKey).Some? then shut else open)
      && (guard.Never? ==> ParseField(f.(items := a + [guard] + b), root, input) == shut)
      && (guard.IfAbsent? || guard.Never? ==>
            ParseField(f.(items := a + [ServerConditional(false, [guard])] + b), root, input) == open
            && ParseField(f.(items := a + [ServerConditional(true, [guard])] + b), root, input)
            == ParseField(f.(items := a + [guard] + b), root, input))
  {
    if guard.IfAbsent? || guard.Never? {
      GuardInside(f, a, guard, b, root, input);
      forall active: bool
        ensures Skips(ServerConditional(active, [guard]), root) <==> active && Skips(guard, root)
        ensures OnlyGuards(ServerConditional(active, [guard]))
      {
        assert [guard][0] == guard;
      }
      hide Skips, ParseField, OnlyGuards;
      GuardInside(f, a, ServerConditional(false, [guard]), b, root, input);
      GuardInside(f, a, ServerConditional(true, [guard]), b, root, input);
    }
  }

  predicate OnlyGuards(item: Item) {
    IsGuard(item) && !IsRequirement(item) && !IsModifier(item) && !item.Default?
  }

  lemma GuardInside(f: FieldDef, a: seq<Item>, guard: Item, b: seq<Item>, root: Json, input: Input)
    requires f.Converts() && !BothSpellings(f, root) && OnlyGuards(guard)
    ensures ParseField(f.(items := a + [guard] + b), root, input)
         == if Skips(guard, root) then Outcome(Ok, root, input) else ParseField(f.(items := a + b), root, input)
  {
    var key := SelectedKey(f, root);
    ItemsDoNotSelect(f, a + [guard] + b, root);
    ItemsDoNotSelect(f, a + b, root);
    assert !guard.Default?;
    hide SkipsField, Skips, Child, SetChild, SelectedKey, BothSpellings, RunProcessors, ApplyDefaults, OnlyGuards;
    GuardSkips(a, guard, b, root);
    GuardRuns(a, guard, b, key, Child(root, key));
    GuardDefaults(a, guard, b, f.binding.value.member, input);
  }

  lemma ItemsDoNotSelect(f: FieldDef, items: seq<Item>, root: Json)
    ensures SelectedKey(f.(items := items), root) == SelectedKey(f, root)
    ensures BothSpellings(f.(items := items), root) == BothSpellings(f, root)
  {
  }

  lemma GuardSkips(a: seq<Item>, guard: Item, b: seq<Item>, root: Json)
    requires OnlyGuards(guard)
    ensures SkipsField(a + [guard] + b, root) <==> Skips(guard, root) || SkipsField(a + b, root)
  {
    var with, without := a + [guard] + b, a + b;
    hide IsGuard, Skips, IsRequirement, IsModifier;
    assert with[|a|] == guard;
    if SkipsField(without, root) {
      var i :| 0 <= i < |without| && IsGuard(without[i]) && Skips(without[i], root);
      assert without[i] == with[if i < |a| then i else i + 1];
    }
    if SkipsField(with, root) && !Skips(guard, root) {
      var i :| 0 <= i < |with| && IsGuard(with[i]) && Skips(with[i], root);
      assert with[i] == without[if i < |a| then i else i - 1];
    }
  }

  lemma GuardRuns(a: seq<Item>, guard: Item, b: seq<Item>, key: string, v: View)
    requires OnlyGuards(guard)
    ensures RunProcessors(a + [guard] + b, key, v) == RunProcessors(a + b, key, v)
  {
    assert a + [guard] + b == a + ([guard] + b);
    RunConcat(a, [guard] + b, key, v);
    RunConcat(a, b, key, v);
    var v' := RunProcessors(a, key, v).1;
    assert ([guard] + b)[1..] == b;
    assert CallIfProcessor(guard, key, v') == (Ok, v');
    hide IsGuard, IsRequirement, IsModifier;
  }

  lemma GuardDefaults(a: seq<Item>, guard: Item, b: seq<Item>, member: nat, input: Input)
    requires !guard.Default?
    ensures ApplyDefaults(a + [guard] + b, member, input) == ApplyDefaults(a + b, member, input)
  {
    assert a + [guard] + b == a + ([guard] + b);
    DefaultsConcat(a, [guard] + b, member, input);
    DefaultsConcat(a, b, member, input);
    assert ([guard] + b)[1..] == b;
  }

  // ------------------------------------------------------------------ the Input

  /** What a field owes its member: nothing when a guard skips it; the conversion of its value in
    the rewritten document, under the spelling that the request uses, when that is present; and its last
    default, if any, otherwise. */
  ghost predicate Delivers(f: FieldDef, root: Json, final: Json, before: Option<Value>, held: Option<Value>)
    requires f.Converts()
  {
    if SkipsField(f.items, root) then held == before
    else if f.alternateKey.Some? && Child(root, f.alternateKey.value).Some? then
      Holds(f, f.alternateKey.value, final, before, held)
    else Holds(f, f.key, final, before, held)
  }

  ghost predicate Holds(f: FieldDef, key: string, final: Json, before: Option<Value>, held: Option<Value>)
    requires f.Converts()
  {
    var v := Child(final, key);
    if v.Some? then held.Some? && f.binding.value.convert(key, v.value) == Converted(held.value)
    else held == if LastDefault(f.items).Some? then LastDefault(f.items) else before
  }

  lemma DeliversSelected(f: FieldDef, root: Json, final: Json, before: Option<Value>, held: Option<Value>)
    requires f.Converts()
    ensures Delivers(f, root, final, before, held)
      <==> if SkipsField(f.items, root) then held == before
           else Holds(f, SelectedKey(f, root), final, before, held)
  {
  }

  lemma FieldDelivers(f: FieldDef, root: Json, input: Input)
    requires f.Converts() && ParseField(f, root, input).result.Ok?
    ensures var out := ParseField(f, root, input);
      var member := f.binding.value.member;
      && Delivers(f, root, out.root, Held(input, member), Held(out.input, member))
      && forall m: nat :: m != member ==> Held(out.input, m) == Held(input, m)
  {
    var out, member := ParseField(f, root, input), f.binding.value.member;
    DeliversSelected(f, root, out.root, Held(input, member), Held(out.input, member));
    hide SkipsField, RunProcessors, SelectedKey, ApplyDefaults, LastDefault, SameShape, Child, SetChild, Delivers;
    var key := SelectedKey(f, root);
    var v := Child(root, key);
    ProcessorsShape(f.items, key, v);
    ChildAfterSet(root, key, RunProcessors(f.items, key, v).1, key);
    LastDefaultStays(f.items, f.binding.value.member, input);
  }

  lemma OtherMembersStay(f: FieldDef, root: Json, input: Input, member: nat)
    requires f.binding.Some? ==> f.binding.value.member != member
    requires ParseField(f, root, input).result.Ok?
    ensures Held(ParseField(f, root, input).input, member) == Held(input, member)
  {
    if f.Converts() {
      FieldDelivers(f, root, input);
    } else {
      hide SkipsField, RunProcessors;
    }
  }

  /** Fields bound to other members leave a member as it was. */
  lemma {:induction false} InputFrame(fields: seq<FieldDef>, root: Json, input: Input, member: nat)
    requires forall f <- fields :: f.binding.Some? ==> f.binding.value.member != member
    requires ParseFields(fields, root, input).result.Ok?
    ensures Held(ParseFields(fields, root, input).input, member) == Held(input, member)
  {
    if fields != [] {
      var f := fields[0];
      var first := ParseField(f, root, input);
      assert f in fields;
      OtherMembersStay(f, root, input, member);
      assert forall g <- fields[1..] :: g in fields;
      InputFrame(fields[1..], first.root, first.input, member);
    }
  }

  lemma DeliversByShape(f: FieldDef, a: Json, b: Json, final: Json, before: Option<Value>, held: Option<Value>)
    requires f.Converts() && SameShape(a, b)
    ensures Delivers(f, a, final, before, held) <==> Delivers(f, b, final, before, held)
  {
    DeliversSelected(f, a, final, before, held);
    DeliversSelected(f, b, final, before, held);
    SelectedKeyByShape(f, a, b);
    SkipsFieldByShape(f.items, a, b);
  }

  /** The Input is what the rewritten document says: after a successful parse, the member of every
    field that has it to itself holds the conversion of the field's value in the final document,
    the field's last default when the field is absent, and nothing when a guard skipped it. */
  lemma {:induction false} InputOfDocument(fields: seq<FieldDef>, root: Json, input: Input, i: nat)
    requires i < |fields| && fields[i].Converts() && KeysApart(fields)
    requires forall j :: 0 <= j < |fields| && j != i && fields[j].binding.Some? ==>
      fields[j].binding.value.member != fields[i].binding.value.member
    requires ParseFields(fields, root, input).result.Ok?
    ensures var out := ParseFields(fields, root, input);
      var member := fields[i].binding.value.member;
      Delivers(fields[i], root, out.root, Held(input, member), Held(out.input, member))
  {
    hide SameShape, Delivers, ParseField, Held, Spellings;
    var f, rest := fields[0], fields[1..];
    var first := ParseField(f, root, input);
    var out := ParseFields(fields, root, input);
    var member := fields[i].binding.value.member;
    var key := SelectedKey(f, root);
    FieldFrame(f, root, input, key);
    if i == 0 {
      FieldDelivers(f, root, input);
      SelectedIsSpelled(f, root);
      RestLeaves(fields, first.root, first.input, key);
      forall g | g in rest ensures g.binding.Some? ==> g.binding.value.member != member {
        var j :| 0 <= j < |rest| && rest[j] == g;
        assert fields[j + 1] == g;
      }
      InputFrame(rest, first.root, first.input, member);
      SameValueDelivers(f, root, first.root, out.root, Held(input, member), Held(first.input, member));
    } else {
      assert rest[i - 1] == fields[i];
      forall j | 0 <= j < |rest| && j != i - 1 && rest[j].binding.Some?
        ensures rest[j].binding.value.member != member
      {
        assert rest[j] == fields[j + 1];
      }
      assert KeysApart(rest) by {
        forall a, b | 0 <= a < b < |rest| ensures Spellings(rest[a]) !! Spellings(rest[b]) {
          assert rest[a] == fields[a + 1] && rest[b] == fields[b + 1];
        }
      }
      InputOfDocument(rest, first.root, first.input, i - 1);
      DeliversByShape(fields[i], root, first.root, out.root, Held(first.input, member), Held(out.input, member));
      OtherMembersStay(f, root, input, member);
    }
  }

  lemma SameValueDelivers(f: FieldDef, root: Json, a: Json, b: Json, before: Option<Value>, held: Option<Value>)
    requires f.Converts() && Delivers(f, root, a, before, held)
    requires Child(a, SelectedKey(f, root)) == Child(b, SelectedKey(f, root))
    ensures Delivers(f, root, b, before, held)
  {
    DeliversSelected(f, root, a, before, held);
    DeliversSelected(f, root, b, before, held);
  }
}
