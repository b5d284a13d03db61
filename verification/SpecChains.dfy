/** The item chains that shipped handlers use to normalise their fields. */
module SpecChains {
  import opened JsonDocument
  import opened SpecItems
  import opened SpecFrame
  import opened SpecIdempotence
  import opened Wrappers

  // ------------------------------------------------------------------ built-in requirements

  predicate HasType(tags: seq<Tag>, v: View) {
    v.None? || exists i :: 0 <= i < |tags| && Is(tags[i], v.value)
  }

  function Accept(ok: bool): Result {
    if ok then Ok else Fail(INVALID_PARAMS)
  }

  function Required(): Item {
    Requirement((key: string, v: View) => Accept(v.Some?))
  }

  function Type(tags: seq<Tag>): Item {
    Requirement((key: string, v: View) => Accept(HasType(tags, v)))
  }

  /** Absent or mistyped values pass: the type is another item's business. */
  function MinUint32(bound: nat): Item {
    Requirement((key: string, v: View) => Accept(v.Some? && IsUint32(v.value) ==> bound <= AsUint32(v.value)))
  }

  function BetweenUint32(low: nat, high: nat): Item {
    Requirement((key: string, v: View) =>
      Accept(v.Some? && IsUint32(v.value) ==> low <= AsUint32(v.value) <= high))
  }

  lemma RunFirst(item: Item, rest: seq<Item>, key: string, v: View)
    ensures var step := CallIfProcessor(item, key, v);
      RunProcessors([item] + rest, key, v)
      == if step.0.Fail? then step else RunProcessors(rest, key, step.1)
  {
    assert ([item] + rest)[1..] == rest;
  }

  // ------------------------------------------------------------------ limits

  /** `type<uint32>, min(m), clamp(lo, hi)`. */
  function ClampedItems(m: nat, lo: nat, hi: nat): seq<Item> {
    [Type([Uint32Tag]), MinUint32(m), Modify(ClampUint32(lo, hi))]
  }

  lemma ClampedRun(m: nat, lo: nat, hi: nat, key: string, v: View)
    requires lo <= hi
    ensures var out := RunProcessors(ClampedItems(m, lo, hi), key, v);
      if v.None? then out == (Ok, None)
      else if !IsUint32(v.value) || AsUint32(v.value) < m then out.0.Fail?
      else out == (Ok, Some(JUint(ClampTo(AsUint32(v.value), lo, hi))))
  {
    var tags := [Uint32Tag];
    var a, b, c := Type(tags), MinUint32(m), Modify(ClampUint32(lo, hi));
    assert v.Some? ==> (HasType(tags, v) <==> IsUint32(v.value)) by {
      assert tags[0] == Uint32Tag;
    }
    assert ClampedItems(m, lo, hi) == [a] + ([b] + [c]);
    RunFirst(a, [b] + [c], key, v);
    RunFirst(b, [c], key, v);
    RunOne(c, key, v);
  }

  /** Clamping after a minimum is idempotent exactly when the range reaches the minimum: otherwise
    an accepted value is clamped below what a second parse accepts. */
  lemma ClampedSettles(m: nat, lo: nat, hi: nat, key: string)
    requires lo <= hi <= MAX_UINT32 && m <= MAX_UINT32
    ensures Settles(ClampedItems(m, lo, hi), key) <==> m <= hi
  {
    hide RunProcessors, ClampedItems;
    var items := ClampedItems(m, lo, hi);
    if m <= hi {
      forall v: View | RunProcessors(items, key, v).0.Ok?
        ensures Fixes(items, key, RunProcessors(items, key, v).1)
      {
        ClampedRun(m, lo, hi, key, v);
        ClampedRun(m, lo, hi, key, RunProcessors(items, key, v).1);
      }
    } else {
      var v := Some(JUint(m));
      ClampedRun(m, lo, hi, key, v);
      ClampedRun(m, lo, hi, key, RunProcessors(items, key, v).1);
    }
  }

  /** A list command's `limit` on either server: xrpld reads null as the default and checks without
    clamping, Clio checks and clamps. */
  function LimitItems(clio: bool, dflt: nat, lo: nat, hi: nat, notUint: Status, tooLow: Status, whenAbsent: Value)
    : seq<Item>
  {
    [ServerConditional(!clio, [Modify(NullAs(JUint(dflt)))]),
     ServerConditional(!clio, [WithCustomError(Type([Uint32Tag]), notUint), WithCustomError(MinUint32(1), tooLow)]),
     ServerConditional(clio, [Type([Uint32Tag]), MinUint32(1)]),
     ServerConditional(clio, [Modify(ClampUint32(lo, hi))]),
     Default(whenAbsent)]
  }

  lemma CallModifier(active: bool, m: Modifier, key: string, v: View)
    ensures CallIfProcessor(ServerConditional(active, [Modify(m)]), key, v)
         == if active && v.Some? then (Rewrite(m, v.value).0, Some(Rewrite(m, v.value).1)) else (Ok, v)
  {
    hide Rewrite;
    var inners := [Modify(m)];
    assert IsModifier(inners[0]) && !IsRequirement(inners[0]) && inners[1..] == [];
    assert forall i :: 0 <= i < |inners| ==> !IsRequirement(inners[i]);
    var step := Apply(inners[0], key, v);
    assert ApplyAll(inners, key, v) == if step.0.Fail? then step else ApplyAll([], key, step.1);
    assert ApplyAll([], key, step.1) == (Ok, step.1);
  }

  lemma CallRequirements(active: bool, a: Item, b: Item, key: string, v: View)
    requires IsRequirement(a) && IsRequirement(b)
    ensures CallIfProcessor(ServerConditional(active, [a, b]), key, v)
         == (if !active then Ok else if Verify(a, key, v).Fail? then Verify(a, key, v) else Verify(b, key, v), v)
  {
    var inners := [a, b];
    assert IsRequirement(inners[0]) && inners[1..] == [b] && [b][1..] == [];
    assert VerifyAll([], key, v) == Ok;
    assert VerifyAll([b], key, v) == Verify(b, key, v);
    assert VerifyAll(inners, key, v) == if Verify(a, key, v).Fail? then Verify(a, key, v) else VerifyAll([b], key, v);
    var item := ServerConditional(active, inners);
    assert IsRequirement(item);
    assert Verify(item, key, v) == if active then VerifyAll(inners, key, v) else Ok;
  }

  /** What checking a limit accepts. */
  lemma LimitChecks(notUint: Status, tooLow: Status, key: string, v: View)
    ensures var t, n := Type([Uint32Tag]), MinUint32(1);
      var good := v.Some? ==> IsUint32(v.value) && 1 <= AsUint32(v.value);
      && (Verify(t, key, v).Ok? && Verify(n, key, v).Ok? <==> good)
      && (Verify(WithCustomError(t, notUint), key, v).Ok? && Verify(WithCustomError(n, tooLow), key, v).Ok?
          <==> good)
  {
    var tags := [Uint32Tag];
    assert tags[0] == Uint32Tag;
    assert v.Some? ==> (HasType(tags, v) <==> IsUint32(v.value));
    var t, n := Type(tags), MinUint32(1);
    assert Verify(WithCustomError(t, notUint), key, v).Ok? <==> Verify(t, key, v).Ok?;
    assert Verify(WithCustomError(n, tooLow), key, v).Ok? <==> Verify(n, key, v).Ok?;
  }

  predicate GoodLimit(v: Json) {
    IsUint32(v) && 1 <= AsUint32(v)
  }

  lemma WrappedRequirement(w: Item, status: Status)
    requires IsRequirement(w)
    ensures IsRequirement(WithCustomError(w, status))
  {
  }

  lemma XrpldHalf(active: bool, dflt: nat, notUint: Status, tooLow: Status, key: string, v: View)
    ensures var t, n := Type([Uint32Tag]), MinUint32(1);
      var out := RunProcessors([ServerConditional(active, [Modify(NullAs(JUint(dflt)))])]
        + [ServerConditional(active, [WithCustomError(t, notUint), WithCustomError(n, tooLow)])], key, v);
      var u := if active && v == Some(JNull) then Some(JUint(dflt)) else v;
      if active && u.Some? && !GoodLimit(u.value) then out.0.Fail? else out == (Ok, u)
  {
    var t, n := Type([Uint32Tag]), MinUint32(1);
    var ct, cn := WithCustomError(t, notUint), WithCustomError(n, tooLow);
    WrappedRequirement(t, notUint);
    WrappedRequirement(n, tooLow);
    var a, b := ServerConditional(active, [Modify(NullAs(JUint(dflt)))]), ServerConditional(active, [ct, cn]);
    var u := if active && v == Some(JNull) then Some(JUint(dflt)) else v;
    hide RunProcessors, CallIfProcessor, Verify, Type, MinUint32, IsRequirement;
    RunFirst(a, [b], key, v);
    CallModifier(active, NullAs(JUint(dflt)), key, v);
    LimitChecks(notUint, tooLow, key, u);
    CallRequirements(active, ct, cn, key, u);
    RunOne(b, key, u);
  }

  lemma ClioHalf(active: bool, lo: nat, hi: nat, whenAbsent: Value, key: string, v: View)
    requires lo <= hi
    ensures var t, n := Type([Uint32Tag]), MinUint32(1);
      var out := RunProcessors([ServerConditional(active, [t, n])]
        + ([ServerConditional(active, [Modify(ClampUint32(lo, hi))])] + [Default(whenAbsent)]), key, v);
      if !active || v.None? then out == (Ok, v)
      else if !GoodLimit(v.value) then out.0.Fail?
      else out == (Ok, Some(JUint(ClampTo(AsUint32(v.value), lo, hi))))
  {
    var t, n := Type([Uint32Tag]), MinUint32(1);
    assert IsRequirement(t) && IsRequirement(n);
    var c, d := ServerConditional(active, [t, n]), ServerConditional(active, [Modify(ClampUint32(lo, hi))]);
    var e := Default(whenAbsent);
    hide RunProcessors, CallIfProcessor, Verify, Type, MinUint32, IsRequirement;
    LimitChecks(INVALID_PARAMS, INVALID_PARAMS, key, v);
    RunFirst(c, [d] + [e], key, v);
    CallRequirements(active, t, n, key, v);
    RunFirst(d, [e], key, v);
    CallModifier(active, ClampUint32(lo, hi), key, v);
    NothingToRun(e, key, if active && v.Some? then Some(Rewrite(ClampUint32(lo, hi), v.value).1) else v);
  }

  lemma LimitRun(clio: bool, dflt: nat, lo: nat, hi: nat, notUint: Status, tooLow: Status, whenAbsent: Value,
                 key: string, v: View)
    requires lo <= hi
    ensures var out := RunProcessors(LimitItems(clio, dflt, lo, hi, notUint, tooLow, whenAbsent), key, v);
      var u := if !clio && v == Some(JNull) then Some(JUint(dflt)) else v;
      if u.None? then out == (Ok, None)
      else if !GoodLimit(u.value) then out.0.Fail?
      else out == (Ok, if clio then Some(JUint(ClampTo(AsUint32(u.value), lo, hi))) else u)
  {
    var t, n := Type([Uint32Tag]), MinUint32(1);
    var ct, cn := WithCustomError(t, notUint), WithCustomError(n, tooLow);
    var ab := [ServerConditional(!clio, [Modify(NullAs(JUint(dflt)))])] + [ServerConditional(!clio, [ct, cn])];
    var cde := [ServerConditional(clio, [t, n])]
               + ([ServerConditional(clio, [Modify(ClampUint32(lo, hi))])] + [Default(whenAbsent)]);
    assert LimitItems(clio, dflt, lo, hi, notUint, tooLow, whenAbsent) == ab + cde;
    hide RunProcessors, LimitItems;
    var u := if !clio && v == Some(JNull) then Some(JUint(dflt)) else v;
    RunConcat(ab, cde, key, v);
    XrpldHalf(!clio, dflt, notUint, tooLow, key, v);
    ClioHalf(clio, lo, hi, whenAbsent, key, u);
  }

  lemma NothingToRun(item: Item, key: string, v: View)
    requires !IsRequirement(item) && !IsModifier(item)
    ensures RunProcessors([item], key, v) == (Ok, v)
  {
    RunOne(item, key, v);
  }

  /** On xrpld the chain always settles; on Clio exactly when the clamping range reaches 1. */
  lemma LimitSettles(clio: bool, dflt: nat, lo: nat, hi: nat, notUint: Status, tooLow: Status, whenAbsent: Value,
                     key: string)
    requires lo <= hi <= MAX_UINT32
    ensures Settles(LimitItems(clio, dflt, lo, hi, notUint, tooLow, whenAbsent), key) <==> (clio ==> 1 <= hi)
  {
    hide RunProcessors, LimitItems;
    var items := LimitItems(clio, dflt, lo, hi, notUint, tooLow, whenAbsent);
    if clio ==> 1 <= hi {
      forall v: View | RunProcessors(items, key, v).0.Ok?
        ensures Fixes(items, key, RunProcessors(items, key, v).1)
      {
        LimitRun(clio, dflt, lo, hi, notUint, tooLow, whenAbsent, key, v);
        LimitRun(clio, dflt, lo, hi, notUint, tooLow, whenAbsent, key, RunProcessors(items, key, v).1);
      }
    } else {
      var v := Some(JUint(1));
      LimitRun(clio, dflt, lo, hi, notUint, tooLow, whenAbsent, key, v);
      LimitRun(clio, dflt, lo, hi, notUint, tooLow, whenAbsent, key, RunProcessors(items, key, v).1);
    }
  }

  // ------------------------------------------------------------------ other numeric chains

  const MIN_INT32: int := -0x8000_0000
  const MAX_INT32: int := 0x7FFF_FFFF

  /** `type<int64>, clampAs<int32>`: the ledger bounds of account_tx. */
  lemma LedgerBoundSettles(key: string)
    ensures Settles([Type([Int64Tag]), Modify(ClampAs(MIN_INT32, MAX_INT32, false))], key)
  {
    var tags := [Int64Tag];
    var m := ClampAs(MIN_INT32, MAX_INT32, false);
    TypeThenModifier(tags, m, key);
    assert tags[0] == Int64Tag;
  }

  /** A modifier after a type check settles when its output has one of the types. */
  lemma TypeThenModifier(tags: seq<Tag>, m: Modifier, key: string)
    requires WellFormed(m)
    requires forall x: Json :: HasType(tags, Some(x)) && Rewrite(m, x).0.Ok? ==> HasType(tags, Some(Rewrite(m, x).1))
    ensures Settles([Type(tags), Modify(m)], key)
  {
    var t, w := Type(tags), Modify(m);
    ModifierSettles(m, key);
    hide Rewrite, HasType;
    forall v: View | RunProcessors([t], key, v).0.Ok? && RunProcessors([w], key, RunProcessors([t], key, v).1).0.Ok?
      ensures Fixes([t], key, RunProcessors([w], key, RunProcessors([t], key, v).1).1)
    {
      RunOne(t, key, v);
      RunOne(w, key, v);
      RunOne(t, key, RunProcessors([w], key, v).1);
      AbsentHasType(tags);
    }
    SettlesConcat([t], [w], key);
    assert [t] + [w] == [t, w];
  }

  lemma AbsentHasType(tags: seq<Tag>)
    ensures HasType(tags, None)
  {
  }

  /** Items that never write, then a modifier of one server: it settles when, on that server, what
    the modifier makes of an accepted value is accepted again. */
  lemma GateSettles(gate: seq<Item>, active: bool, m: Modifier, key: string)
    requires WellFormed(m) && Inert(gate)
    requires active ==> forall x: Json ::
      RunProcessors(gate, key, Some(x)).0.Ok? && Rewrite(m, x).0.Ok?
      ==> RunProcessors(gate, key, Some(Rewrite(m, x).1)).0.Ok?
    ensures Settles(gate + [ServerConditional(active, [Modify(m)])], key)
  {
    hide RunProcessors, CallIfProcessor, Rewrite, WellFormed;
    var w := ServerConditional(active, [Modify(m)]);
    forall v: View | RunProcessors([w], key, v).0.Ok?
      ensures Fixes([w], key, RunProcessors([w], key, v).1)
    {
      RunOne(w, key, v);
      CallModifier(active, m, key, v);
      RunOne(w, key, RunProcessors([w], key, v).1);
      CallModifier(active, m, key, RunProcessors([w], key, v).1);
      if v.Some? {
        RewriteSettles(m, v.value);
      }
    }
    forall v: View
      ensures var u := RunProcessors(gate, key, v);
        var x := RunProcessors([w], key, u.1);
        u.0.Ok? && x.0.Ok? ==> Fixes(gate, key, x.1)
    {
      InertKeeps(gate, key, v);
      RunOne(w, key, v);
      CallModifier(active, m, key, v);
      InertKeeps(gate, key, RunProcessors([w], key, v).1);
    }
    SettlesConcat(gate, [w], key);
  }

  /** A conditional of one requirement. */
  lemma CallRequirement(active: bool, r: Item, key: string, v: View)
    requires IsRequirement(r)
    ensures CallIfProcessor(ServerConditional(active, [r]), key, v)
         == (if active then Verify(r, key, v) else Ok, v)
    ensures IsRequirement(ServerConditional(active, [r]))
  {
    var inners := [r];
    assert IsRequirement(inners[0]) && inners[1..] == [];
    assert VerifyAll([], key, v) == Ok;
    assert VerifyAll(inners, key, v) == Verify(r, key, v);
  }

  /** get_aggregate_price's `time_threshold`: xrpld also takes a string holding a number. Its
    `trim` continues with a range. */
  function ThresholdGate(clio: bool): seq<Item> {
    [ServerConditional(!clio, [Type([Uint32Tag, StringTag])])] + [ServerConditional(clio, [Type([Uint32Tag])])]
  }

  function ThresholdItems(clio: bool): seq<Item> {
    ThresholdGate(clio) + [ServerConditional(!clio, [Modify(LexicalUint32)])]
  }

  lemma ThresholdAccepts(clio: bool, key: string, x: Json)
    ensures Inert(ThresholdGate(clio))
    ensures RunProcessors(ThresholdGate(clio), key, Some(x)).0.Ok? <==> IsUint32(x) || (!clio && x.JString?)
  {
    var both, one := [Uint32Tag, StringTag], [Uint32Tag];
    assert both[0] == Uint32Tag && both[1] == StringTag && one[0] == Uint32Tag;
    var a, b := ServerConditional(!clio, [Type(both)]), ServerConditional(clio, [Type(one)]);
    assert Verify(Type(both), key, Some(x)).Ok? <==> IsUint32(x) || x.JString?;
    assert Verify(Type(one), key, Some(x)).Ok? <==> IsUint32(x);
    CallRequirement(!clio, Type(both), key, Some(x));
    CallRequirement(clio, Type(one), key, Some(x));
    hide RunProcessors, CallIfProcessor, Verify, Type;
    RunFirst(a, [b], key, Some(x));
    RunOne(b, key, Some(x));
  }

  /** The number a threshold stands for: a uint32, or on xrpld a text that spells one. */
  function Threshold(clio: bool, x: Json): Option<nat> {
    if IsUint32(x) then Some(AsUint32(x))
    else if !clio && x.JString? then LexicalValue(x.s)
    else None
  }

  /** What the chain makes of a threshold: a number stays, a text becomes its number, and any other value
    is refused. */
  lemma ThresholdRun(clio: bool, key: string, x: Json)
    ensures var out := RunProcessors(ThresholdItems(clio), key, Some(x));
      && (out.0.Ok? <==> Threshold(clio, x).Some?)
      && (out.0.Ok? ==> out.1 == Some(if x.JString? then JUint(Threshold(clio, x).value) else x))
  {
    var gate, cond := ThresholdGate(clio), ServerConditional(!clio, [Modify(LexicalUint32)]);
    ThresholdAccepts(clio, key, x);
    InertKeeps(gate, key, Some(x));
    RunConcat(gate, [cond], key, Some(x));
    RunOne(cond, key, Some(x));
    CallModifier(!clio, LexicalUint32, key, Some(x));
    hide RunProcessors, ThresholdGate, LexicalValue, Inert;
  }

  /** A trim is a threshold within its range. */
  lemma TrimRun(clio: bool, low: nat, high: nat, key: string, x: Json)
    ensures RunProcessors(ThresholdItems(clio) + [BetweenUint32(low, high)], key, Some(x)).0.Ok?
      <==> Threshold(clio, x).Some? && low <= Threshold(clio, x).value <= high
  {
    ThresholdRun(clio, key, x);
    var v := RunProcessors(ThresholdItems(clio), key, Some(x)).1;
    RunConcat(ThresholdItems(clio), [BetweenUint32(low, high)], key, Some(x));
    RunOne(BetweenUint32(low, high), key, v);
    hide RunProcessors, ThresholdItems, Digits;
  }

  lemma ThresholdSettles(clio: bool, low: nat, high: nat, key: string)
    ensures Settles(ThresholdItems(clio), key)
    ensures Settles(ThresholdItems(clio) + [BetweenUint32(low, high)], key)
  {
    forall x: Json
      ensures RunProcessors(ThresholdGate(clio), key, Some(x)).0.Ok?
        <==> IsUint32(x) || (!clio && x.JString?)
    {
      ThresholdAccepts(clio, key, x);
    }
    ThresholdAccepts(clio, key, JNull);
    hide RunProcessors, ThresholdGate;
    GateSettles(ThresholdGate(clio), !clio, LexicalUint32, key);
    SettlesThenInert(ThresholdItems(clio), [BetweenUint32(low, high)], key);
  }

  /** account_tx's `tx_type`: lower case, then any requirement. */
  lemma TxTypeSettles(validator: Item, key: string)
    requires validator.Requirement?
    ensures Settles([Modify(ToLower), validator], key)
  {
    ModifierSettles(ToLower, key);
    SettlesThenInert([Modify(ToLower)], [validator], key);
    assert [Modify(ToLower)] + [validator] == [Modify(ToLower), validator];
  }

  /** get_aggregate_price's `oracles`: xrpld checks only the array, Clio rewrites every nested id. */
  function OraclesItems(clio: bool, arrayChecks: seq<Item>, isAccount: string -> bool): seq<Item> {
    [Required(), ServerConditional(!clio, arrayChecks)] + [ServerConditional(clio, [Modify(OracleIds(isAccount))])]
  }

  lemma OraclesFieldSettles(clio: bool, arrayChecks: seq<Item>, isAccount: string -> bool, key: string)
    requires arrayChecks != [] && forall i :: 0 <= i < |arrayChecks| ==> IsRequirement(arrayChecks[i])
    ensures Settles(OraclesItems(clio, arrayChecks, isAccount), key)
  {
    var r, c := Required(), ServerConditional(!clio, arrayChecks);
    assert IsRequirement(arrayChecks[0]) && IsRequirement(c);
    if clio {
      forall x: Json ensures RunProcessors([r, c], key, Some(x)).0.Ok? {
        assert Verify(c, key, Some(x)) == Ok && Verify(r, key, Some(x)) == Ok;
        assert [r, c] == [r] + [c];
        RunFirst(r, [c], key, Some(x));
        RunOne(c, key, Some(x));
      }
    }
    hide RunProcessors, Rewrite;
    GateSettles([r, c], clio, OracleIds(isAccount), key);
  }

  // ------------------------------------------------------------------ a nested section

  /** The `oracle_document_id` of ledger_entry's `oracle` object. */
  function DocumentIdItems(s1: Status, s2: Status): seq<Item> {
    [WithCustomError(Required(), s1)]
    + ([WithCustomError(Type([Uint32Tag, StringTag]), s2)] + [WithCustomError(Modify(ToNumber), s2)])
  }

  lemma WrappedCall(w: Item, status: Status, key: string, v: View)
    ensures var out := CallIfProcessor(WithCustomError(w, status), key, v);
      var (verified, applied) := (Verify(w, key, v), Apply(w, key, v));
      if IsRequirement(w) then out == (if verified.Fail? then Fail(status) else Ok, v)
      else if IsModifier(w) then out == (if applied.0.Fail? then Fail(status) else Ok, applied.1)
      else out == (Ok, v)
  {
  }

  lemma DocumentIdRun(s1: Status, s2: Status, key: string, v: View)
    ensures var out := RunProcessors(DocumentIdItems(s1, s2), key, v);
      if v.None? || !(IsUint32(v.value) || v.value.JString?) || StringToNumber(v.value).0.Fail? then out.0.Fail?
      else out == (Ok, Some(StringToNumber(v.value).1))
  {
    var tags := [Uint32Tag, StringTag];
    assert tags[0] == Uint32Tag && tags[1] == StringTag;
    assert v.Some? ==> (HasType(tags, v) <==> IsUint32(v.value) || v.value.JString?);
    var r, t := WithCustomError(Required(), s1), WithCustomError(Type(tags), s2);
    var w := WithCustomError(Modify(ToNumber), s2);
    hide StringToNumber;
    WrappedCall(Required(), s1, key, v);
    WrappedCall(Type(tags), s2, key, v);
    WrappedCall(Modify(ToNumber), s2, key, v);
    hide RunProcessors, CallIfProcessor;
    RunFirst(r, [t] + [w], key, v);
    RunFirst(t, [w], key, v);
    RunOne(w, key, v);
  }

  lemma DocumentIdSettles(s1: Status, s2: Status, key: string)
    ensures Settles(DocumentIdItems(s1, s2), key)
  {
    hide RunProcessors, DocumentIdItems;
    var items := DocumentIdItems(s1, s2);
    forall v: View | RunProcessors(items, key, v).0.Ok?
      ensures Fixes(items, key, RunProcessors(items, key, v).1)
    {
      DocumentIdRun(s1, s2, key, v);
      DocumentIdRun(s1, s2, key, RunProcessors(items, key, v).1);
      DigitsDoNotRepeat(v.value);
    }
  }

  /** The object branch of `oracle`: a section of two fields, the second rewritten in place. */
  lemma OracleSectionSettles(accountItems: seq<Item>, s1: Status, s2: Status, key: string)
    requires Inert(accountItems)
    ensures Settles([IfType(ObjectTag, [Section([
              SubField("account", accountItems),
              SubField("oracle_document_id", DocumentIdItems(s1, s2))])])], key)
  {
    var subs := [SubField("account", accountItems), SubField("oracle_document_id", DocumentIdItems(s1, s2))];
    forall v: View | RunProcessors(accountItems, "account", v).0.Ok?
      ensures Fixes(accountItems, "account", RunProcessors(accountItems, "account", v).1)
    {
      InertKeeps(accountItems, "account", v);
    }
    DocumentIdSettles(s1, s2, "oracle_document_id");
    SectionSettles(subs, key);
    IfTypeSettles(ObjectTag, [Section(subs)], key);
  }
}
