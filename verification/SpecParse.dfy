/** Fields bound to Input members, and the walk that validates a request, rewrites it in place and
  builds the Input in one pass. */
module SpecParse {
  import opened DocumentViews
  import opened JsonDocument
  import opened OverridePlan
  import opened Requests
  import opened SpecItems
  import opened Wrappers

  /** A converter's value, its rejection, or an exception: an extractor that throws or a read of an
    absent or wrongly typed value. */
  datatype Conversion = Converted(value: Value) | Rejected(status: Status) | Thrown

  /** The member a field fills: from the field's own value through a converter, or from several root
    keys at once, as the ledger selector does. */
  datatype Binding =
    | Binding(member: nat, convert: (string, Json) -> Conversion)
    | Selector(member: nat, keys: seq<string>, select: seq<View> -> Conversion)

  /** A field with its items; bound fields fill a member, plain ones only validate. A bound field
    may have a second spelling of its key. A selector runs no items. */
  datatype FieldDef = FieldDef(key: string, items: seq<Item>, binding: Option<Binding>,
                               alternateKey: Option<string>)
  {
    predicate Selects() {
      binding.Some? && binding.value.Selector?
    }

    /** Bound to a member through a converter of its own value. */
    predicate Converts() {
      binding.Some? && binding.value.Binding?
    }
  }

  /** The Input's members that were assigned; the others are value-initialised. */
  type Input = map<nat, Value>

  /** How a parse ended, with the document and Input it left; `thrown` when an exception ended it. */
  datatype Outcome = Outcome(result: Result, root: Json, input: Input, thrown: bool := false)

  const TOO_MANY := Status(0, "Too many fields provided.")
  const EXCEPTION := Status(-1, "")

  predicate BothSpellings(f: FieldDef, root: Json) {
    f.alternateKey.Some? && Child(root, f.alternateKey.value).Some? && Child(root, f.key).Some?
  }

  /** The key the field is read from. */
  function SelectedKey(f: FieldDef, root: Json): string {
    if f.alternateKey.Some? && Child(root, f.alternateKey.value).Some? then f.alternateKey.value
    else f.key
  }

  /** Every default among the items assigns the member, so the last one stays. */
  function ApplyDefaults(items: seq<Item>, member: nat, input: Input): Input {
    if items == [] then input
    else ApplyDefaults(items[1..], member, if items[0].Default? then input[member := items[0].value] else input)
  }

  /** The default that counts among a field's items. */
  function LastDefault(items: seq<Item>): Option<Value> {
    if items == [] then None
    else if items[|items| - 1].Default? then Some(items[|items| - 1].value)
    else LastDefault(items[..|items| - 1])
  }

  lemma {:induction false} DefaultsConcat(a: seq<Item>, b: seq<Item>, member: nat, input: Input)
    ensures ApplyDefaults(a + b, member, input) == ApplyDefaults(b, member, ApplyDefaults(a, member, input))
  {
    if a == [] {
      assert a + b == b;
    } else {
      assert (a + b)[1..] == a[1..] + b;
      DefaultsConcat(a[1..], b, member, if a[0].Default? then input[member := a[0].value] else input);
    }
  }

  lemma {:induction false} LastDefaultStays(items: seq<Item>, member: nat, input: Input)
    ensures ApplyDefaults(items, member, input)
         == match LastDefault(items) case None => input case Some(v) => input[member := v]
  {
    if items != [] {
      var init, last := items[..|items| - 1], items[|items| - 1];
      assert items == init + [last] && [last][1..] == [];
      DefaultsConcat(init, [last], member, input);
      LastDefaultStays(init, member, input);
    }
  }

  function Assigned(c: Conversion, member: nat, root: Json, input: Input): Outcome {
    match c
    case Rejected(status) => Outcome(Fail(status), root, input)
    case Converted(value) => Outcome(Ok, root, input[member := value])
    case Thrown => Outcome(Fail(EXCEPTION), root, input, true)
  }

  function Convert(f: FieldDef, key: string, v: View, root: Json, input: Input): Outcome
    requires !f.Selects()
  {
    if f.binding.None? then Outcome(Ok, root, input)
    else
      var Binding(member, convert) := f.binding.value;
      if v.None? then Outcome(Ok, root, ApplyDefaults(f.items, member, input))
      else Assigned(convert(key, v.value), member, root, input)
  }

  function ViewsOf(root: Json, keys: seq<string>): seq<View> {
    seq(|keys|, i requires 0 <= i < |keys| => Child(root, keys[i]))
  }

  function ParseField(f: FieldDef, root: Json, input: Input): Outcome {
    if f.Selects() then
      var Selector(member, keys, select) := f.binding.value;
      Assigned(select(ViewsOf(root, keys)), member, root, input)
    else if BothSpellings(f, root) then Outcome(Fail(TOO_MANY), root, input)
    else if f.binding.Some? && SkipsField(f.items, root) then Outcome(Ok, root, input)
    else
      var key := SelectedKey(f, root);
      var (r, v) := RunProcessors(f.items, key, Child(root, key));
      var root' := SetChild(root, key, v);
      if r.Fail? then Outcome(r, root', input) else Convert(f, key, v, root', input)
  }

  /** The fields in order, up to the first failure. */
  function ParseFields(fields: seq<FieldDef>, root: Json, input: Input): Outcome {
    if fields == [] then Outcome(Ok, root, input)
    else
      var first := ParseField(fields[0], root, input);
      if first.result.Fail? then first else ParseFields(fields[1..], first.root, first.input)
  }

  function Keys(fields: seq<FieldDef>): seq<string> {
    seq(|fields|, i requires 0 <= i < |fields| => fields[i].key)
  }

  /** The fields that win for their keys, one per key, in slot order. */
  ghost function EffectiveFields(fields: seq<FieldDef>): seq<FieldDef>
  {
    seq(|Effective(Keys(fields))|, i requires 0 <= i < |Effective(Keys(fields))| =>
      EffectiveInRange(Keys(fields), i);
      fields[Effective(Keys(fields))[i]])
  }

  lemma EffectiveInRange(keys: seq<string>, i: nat)
    requires i < |Effective(keys)|
    ensures Effective(keys)[i] < |keys|
  {
    assert Slots(keys)[i] in Slots(keys);
  }

  lemma {:induction false} ParseConcat(a: seq<FieldDef>, b: seq<FieldDef>, root: Json, input: Input)
    ensures var first := ParseFields(a, root, input);
      ParseFields(a + b, root, input)
      == if first.result.Fail? then first else ParseFields(b, first.root, first.input)
  {
    hide ParseField;
    if a == [] {
      assert a + b == b;
    } else {
      var first := ParseField(a[0], root, input);
      assert (a + b)[1..] == a[1..] + b;
      if first.result.Ok? {
        ParseConcat(a[1..], b, first.root, first.input);
      }
    }
  }

  lemma OnlyFailuresThrow(f: FieldDef, root: Json, input: Input)
    ensures ParseField(f, root, input).thrown ==> ParseField(f, root, input).result.Fail?
  {
  }

  lemma ParseOne(f: FieldDef, root: Json, input: Input)
    ensures ParseFields([f], root, input) == ParseField(f, root, input)
  {
    hide ParseField;
    assert [f][1..] == [];
    OnlyFailuresThrow(f, root, input);
  }

  /** One more field of a spec whose earlier fields all passed. */
  lemma ParseStep(fields: seq<FieldDef>, n: nat, root: Json, input: Input)
    requires n < |fields| && ParseFields(fields[..n], root, input).result.Ok?
    ensures var mid := ParseFields(fields[..n], root, input);
      var step := ParseField(fields[n], mid.root, mid.input);
      && ParseFields(fields[..n + 1], root, input) == step
      && (step.result.Fail? ==> ParseFields(fields, root, input) == step)
  {
    hide ParseField;
    var mid := ParseFields(fields[..n], root, input);
    ParseOne(fields[n], mid.root, mid.input);
    ParseConcat(fields[..n], [fields[n]], root, input);
    assert fields[..n + 1] == fields[..n] + [fields[n]];
    ParseConcat(fields[..n + 1], fields[n + 1..], root, input);
    assert fields == fields[..n + 1] + fields[n + 1..];
  }

  // ------------------------------------------------------------------ the walk

  /** Assigns what a conversion gives. */
  method Assign(c: Conversion, member: nat, before: Input, ghost root: Json)
    returns (result: Result, input: Input, thrown: bool)
    ensures Outcome(result, root, input, thrown) == Assigned(c, member, root, before)
  {
    result, input, thrown := Ok, before, false;
    match c
    case Rejected(status) => result := Fail(status);
    case Converted(value) => input := input[member := value];
    case Thrown => result, thrown := Fail(EXCEPTION), true;
  }

  /** The view of a child of the request's mutable root. */
  lemma RootChildSees(root: Json, key: string)
    ensures var view := RootView(true).ChildView(root, key);
      && view.Live(root) && view.Mutable() && view.key == key && view.Value(root) == Child(root, key)
  {
    ChildViewSees(RootView(true), root, key);
  }

  lemma RootChildWritten(root: Json, key: string, out: (Result, View), r: Result, after: Json)
    requires Did(root, RootView(true).ChildView(root, key), out, r, after)
    ensures r == out.0 && after == SetChild(root, key, out.1)
    ensures RootView(true).ChildView(root, key).Value(after) == out.1
  {
    RootChildSees(root, key);
    var whole := RootView(true);
    assert Lookup(root, []) == Some(root) && whole.Value(root) == Some(root);
    if root.JObject? {
      ChildWritten(root, whole, key, out.1);
      assert Written(root, whole, Some(SetChild(root, key, out.1))) == SetChild(root, key, out.1);
    } else {
      assert whole.ChildView(root, key) == AbsentConst(key);
    }
  }

  /** Runs one field: guards first, then the items through a mutable view of the selected child, then
    the conversion or the defaults. */
  method ParseInto(request: Request, f: FieldDef, before: Input)
    returns (result: Result, input: Input, thrown: bool)
    modifies request
    ensures Outcome(result, request.root, input, thrown) == ParseField(f, old(request.root), before)
  {
    input, thrown := before, false;
    if f.Selects() {
      var Selector(member, keys, select) := f.binding.value;
      result, input, thrown := Assign(select(ViewsOf(request.root, keys)), member, before, request.root);
      return;
    }
    if BothSpellings(f, request.root) {
      return Fail(TOO_MANY), input, false;
    }
    if f.binding.Some? && SkipsField(f.items, request.root) {
      return Ok, input, false;
    }
    hide RunProcessors, SkipsField, BothSpellings, SelectedKey, ApplyDefaults, Child, SetChild, Did, Lookup;
    ghost var was := request.root;
    var key := SelectedKey(f, request.root);
    RootChildSees(request.root, key);
    var view := RootView(true).ChildView(request.root, key);
    result := request.RunProcessors(view, f.items);
    RootChildWritten(was, key, RunProcessors(f.items, key, Child(was, key)), result, request.root);
    if result.Fail? || f.binding.None? {
      return;
    }
    var Binding(member, convert) := f.binding.value;
    if !view.Present() {
      input := ApplyDefaults(f.items, member, input);
    } else {
      result, input, thrown := Assign(convert(key, view.Value(request.root).value), member, before, request.root);
    }
  }

  /** Validates a request against a spec and builds its Input, walking the override plan: the winning
    field of every surviving key, in declaration order, until one fails. `visited` are the fields it
    ran. */
  method Parse(request: Request, fields: seq<FieldDef>)
    returns (result: Result, input: Input, thrown: bool, ghost visited: seq<nat>)
    modifies request
    ensures Outcome(result, request.root, input, thrown)
         == ParseFields(EffectiveFields(fields), old(request.root), map[])
    ensures visited <= Effective(Keys(fields))
    ensures result.Ok? ==> visited == Effective(Keys(fields))
    ensures result.Fail? ==>
      && 0 < |visited| <= |EffectiveFields(fields)|
      && ParseFields(EffectiveFields(fields)[..|visited| - 1], old(request.root), map[]).result.Ok?
      && ParseFields(EffectiveFields(fields)[..|visited|], old(request.root), map[]).result.Fail?
  {
    hide *;
    var keys := Keys(fields);
    var shouldRun, effectiveIdx := BuildOverridePlan(keys);
    var run, winner := shouldRun[..], effectiveIdx[..];
    result, input, thrown, visited := Ok, map[], false, [];
    ghost var all, order, n := EffectiveFields(fields), Effective(keys), 0;
    KeysLength(fields);
    WalkBounds(fields, request.root);
    assert forall m :: 0 <= m < |keys| && run[m] ==> IsLast(keys, m, winner[m]);
    for i := 0 to |fields|
      invariant n == |Slots(keys[..i])| <= |all|
      invariant visited == order[..n]
      invariant result == Ok && !thrown
      invariant Outcome(Ok, request.root, input) == ParseFields(all[..n], old(request.root), map[])
    {
      WalkStep(fields, i, winner[i]);
      if run[i] {
        ParseStep(all, n, old(request.root), map[]);
        n := n + 1;
        visited := visited + [winner[i]];
        OnlyFailuresThrow(fields[winner[i]], request.root, input);
        result, input, thrown := ParseInto(request, fields[winner[i]], input);
        if result.Fail? {
          assert all[..n - 1] == all[..n][..n - 1];
          return;
        }
      }
    }
    assert keys[..|keys|] == keys && all[..n] == all && order[..n] == order;
  }

  lemma KeysLength(fields: seq<FieldDef>)
    ensures |Keys(fields)| == |fields| && |EffectiveFields(fields)| == |Effective(Keys(fields))|
  {
  }

  /** Before the first field no slot is filled and nothing has been parsed; after the last one
    every slot is filled. */
  lemma WalkBounds(fields: seq<FieldDef>, root: Json)
    ensures |Slots(Keys(fields)[..0])| == 0
    ensures |Slots(Keys(fields))| == |EffectiveFields(fields)|
    ensures ParseFields(EffectiveFields(fields)[..0], root, map[]) == Outcome(Ok, root, map[])
  {
    assert Keys(fields)[..0] == [];
    NoSlots<string>([]);
  }

  /** A field that opens a slot is parsed there as its key's last definition. */
  lemma WalkStep(fields: seq<FieldDef>, i: nat, w: nat)
    requires i < |fields| == |Keys(fields)|
    ensures var keys, all := Keys(fields), EffectiveFields(fields);
      var n := |Slots(keys[..i])|;
      && |Slots(keys[..i + 1])| == (if IsFirst(keys, i) then n + 1 else n) <= |all| == |Effective(keys)|
      && (IsFirst(keys, i) && IsLast(keys, i, w) ==>
            w < |fields| && all[n] == fields[w] && Effective(keys)[n] == w)
  {
    SlotStep(Keys(fields), i);
  }
}
