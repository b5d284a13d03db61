/** Whole specs of handlers that rewrite their requests: re-parsing what one of them has accepted
  succeeds, changes nothing and builds the same Input, on either server and whatever their
  converters do. */
module ShippedSpecs {
  import opened JsonDocument
  import opened LedgerSelection
  import opened SpecChains
  import opened SpecFrame
  import opened SpecIdempotence
  import opened SpecItems
  import opened SpecParse
  import opened Wrappers
  import opened Xrpl

  /** The converters of a spec by the member they fill. */
  type Converters = nat -> ((string, Json) -> Conversion)

  function Bound(key: string, items: seq<Item>, member: nat, c: Converters): FieldDef {
    FieldDef(key, items, Some(Binding(member, c(member))), None)
  }

  function Plain(key: string, items: seq<Item>): FieldDef {
    FieldDef(key, items, None, None)
  }

  const LEDGER_KEYS: seq<string> := ["ledger", "ledger_hash", "ledger_index"]

  function Select(lib: Libxrpl, clio: bool, store: Specifier -> Value): seq<View> -> Conversion {
    (views: seq<View>) =>
      if |views| != 3 then Rejected(INVALID_PARAMS)
      else
        match if clio then ClioFromViews(lib, views[1], views[2]) else XrpldFromViews(lib, views[0], views[1], views[2])
        case Refused(status) => Rejected(status)
        case Selected(specifier) => Converted(store(specifier))
  }

  /** The field that resolves the three ledger keys into one member. */
  function LedgerSelector(lib: Libxrpl, clio: bool, store: Specifier -> Value): FieldDef {
    FieldDef("ledger_index", [], Some(Selector(0, LEDGER_KEYS, Select(lib, clio, store))), None)
  }

  function Deprecated(): Item {
    Check((key: string, v: View) => if v.Some? then Some(Warning(key, "deprecated")) else None)
  }

  // ------------------------------------------------------------------ from fields to specs

  /** A field that can be part of a spec that re-parses: its items settle, and it leaves the ledger
    keys alone. */
  ghost predicate Reparses(f: FieldDef) {
    && f.alternateKey.None?
    && SettlesEverywhere(f)
    && (f.Selects() ==> f.binding.value.keys == LEDGER_KEYS)
    && forall key <- LEDGER_KEYS :: LeavesAlone(f, key)
  }

  /** A spec of such fields: what it accepts once it accepts again, unchanged and with the same
    Input. */
  lemma SpecReparses(spec: seq<FieldDef>, root: Json)
    requires forall f <- spec :: Reparses(f)
    ensures var fields := EffectiveFields(spec);
      var out := ParseFields(fields, root, map[]);
      out.result.Ok? ==> ParseFields(fields, out.root, map[]) == out
  {
    var fields := EffectiveFields(spec);
    forall f | f in fields ensures f in spec && Reparses(f) {
      var i :| 0 <= i < |fields| && fields[i] == f;
      EffectiveInRange(Keys(spec), i);
    }
    assert SelectorsUndisturbed(fields) by {
      forall f, g | f in fields && g in fields && f.Selects()
        ensures forall key <- f.binding.value.keys :: LeavesAlone(g, key)
      {
        assert Reparses(f) && Reparses(g);
      }
    }
    OwnKeysAreApart(spec);
    hide ParseFields, SettlesEverywhere, LeavesAlone, EffectiveFields;
    ReparseIsStable(spec, root);
  }

  lemma InertSettles(items: seq<Item>, key: string)
    requires Inert(items)
    ensures Settles(items, key)
  {
    forall v: View | RunProcessors(items, key, v).0.Ok?
      ensures Fixes(items, key, RunProcessors(items, key, v).1)
    {
      InertKeeps(items, key, v);
    }
  }

  lemma SelectorReparses(lib: Libxrpl, clio: bool, store: Specifier -> Value)
    ensures Reparses(LedgerSelector(lib, clio, store))
  {
  }

  lemma InertReparses(f: FieldDef)
    requires !f.Selects() && f.alternateKey.None? && Inert(f.items)
    ensures Reparses(f)
  {
    InertSettles(f.items, f.key);
  }

  lemma SettledReparses(f: FieldDef)
    requires !f.Selects() && f.alternateKey.None? && Settles(f.items, f.key) && f.key !in LEDGER_KEYS
    ensures Reparses(f)
  {
  }

  lemma NotLedgerKey(key: string)
    requires key != "ledger" && key != "ledger_hash" && key != "ledger_index"
    ensures key !in LEDGER_KEYS
  {
  }

  /** A conditional of requirements or checks never writes. */
  lemma ConditionalIsInert(active: bool, inners: seq<Item>)
    requires inners != []
    requires (forall i :: 0 <= i < |inners| ==> IsRequirement(inners[i]))
             || forall i :: 0 <= i < |inners| ==> inners[i].Check?
    ensures Inert([ServerConditional(active, inners)])
    ensures IsRequirement(inners[0]) ==> IsRequirement(ServerConditional(active, inners))
  {
  }

  // ------------------------------------------------------------------ account_offers

  /** Reads, checks and clamps nothing but the limit. */
  function AccountOffers(lib: Libxrpl, clio: bool, store: Specifier -> Value, c: Converters, dflt: Value)
    : seq<FieldDef>
  {
    [LedgerSelector(lib, clio, store),
     Bound("account", [Required()], 1, c),
     Bound("limit", LimitItems(clio, 200, 10, 400, Status(0, "notUnsigned"), Status(0, "limit"), dflt), 2, c),
     Bound("marker", [], 3, c),
     Plain("ledger", [ServerConditional(clio, [Deprecated()])]),
     Plain("strict", [ServerConditional(clio, [Deprecated()])])]
  }

  lemma AccountOffersReparses(lib: Libxrpl, clio: bool, store: Specifier -> Value, c: Converters, dflt: Value,
                              root: Json)
    ensures var fields := EffectiveFields(AccountOffers(lib, clio, store, c, dflt));
      var out := ParseFields(fields, root, map[]);
      out.result.Ok? ==> ParseFields(fields, out.root, map[]) == out
  {
    var spec := AccountOffers(lib, clio, store, c, dflt);
    SelectorReparses(lib, clio, store);
    ConditionalIsInert(clio, [Deprecated()]);
    LimitSettles(clio, 200, 10, 400, Status(0, "notUnsigned"), Status(0, "limit"), dflt, "limit");
    NotLedgerKey("limit");
    hide Reparses, Settles, LimitItems;
    InertReparses(spec[1]);
    SettledReparses(spec[2]);
    InertReparses(spec[3]);
    InertReparses(spec[4]);
    InertReparses(spec[5]);
    SpecReparses(spec, root);
  }

  // ------------------------------------------------------------------ account_tx

  /** The marker: an object of two numbers, checked in place. */
  function MarkerItems(): seq<Item> {
    [WithCustomError(Type([ObjectTag]), Status(0, "invalidMarker"))]
    + [IfType(ObjectTag, [Section([SubField("ledger", [Required(), Type([Uint32Tag])]),
                                   SubField("seq", [Required(), Type([Uint32Tag])])])])]
  }

  lemma MarkerSettles(key: string)
    ensures Settles(MarkerItems(), key)
  {
    var subs := [SubField("ledger", [Required(), Type([Uint32Tag])]),
                 SubField("seq", [Required(), Type([Uint32Tag])])];
    InertSettles(subs[0].items, "ledger");
    InertSettles(subs[1].items, "seq");
    var t, w := WithCustomError(Type([ObjectTag]), Status(0, "invalidMarker")), IfType(ObjectTag, [Section(subs)]);
    assert MarkerItems() == [t] + [w];
    SectionSettles(subs, key);
    IfTypeSettles(ObjectTag, [Section(subs)], key);
    forall v: View
      ensures var u := RunProcessors([t], key, v);
        var x := RunProcessors([w], key, u.1);
        u.0.Ok? && x.0.Ok? ==> Fixes([t], key, x.1)
    {
      TypeKeepsShape([ObjectTag], Status(0, "invalidMarker"), w, key, v);
    }
    hide RunProcessors, MarkerItems;
    SettlesConcat([t], [w], key);
  }

  /** An object stays an object, so its type check passes again. */
  lemma TypeKeepsShape(tags: seq<Tag>, status: Status, w: Item, key: string, v: View)
    requires tags == [ObjectTag]
    ensures var t := WithCustomError(Type(tags), status);
      var u := RunProcessors([t], key, v);
      var x := RunProcessors([w], key, u.1);
      u.0.Ok? ==> Fixes([t], key, x.1)
  {
    var t := WithCustomError(Type(tags), status);
    assert tags[0] == ObjectTag;
    RunOne(t, key, v);
    WrappedCall(Type(tags), status, key, v);
    var x := RunProcessors([w], key, v).1;
    ProcessorsShape([w], key, v);
    RunOne(t, key, x);
    WrappedCall(Type(tags), status, key, x);
  }

  function LedgerBound(): seq<Item> {
    [Type([Int64Tag]), Modify(ClampAs(MIN_INT32, MAX_INT32, false))]
  }

  /** The first version, with its transaction type and delegate validators. */
  function AccountTx(lib: Libxrpl, clio: bool, store: Specifier -> Value, c: Converters, txType: Item, delegate: Item)
    : seq<FieldDef>
  {
    [LedgerSelector(lib, clio, store),
     Bound("account", [Required()], 1, c),
     Bound("ledger_index_min", LedgerBound(), 2, c),
     Bound("ledger_index_max", LedgerBound(), 3, c),
     Plain("ctid", [Type([StringTag])]),
     Bound("limit", ClampedItems(1, 1, 1000), 4, c),
     Bound("marker", MarkerItems(), 5, c),
     Bound("binary", [], 6, c),
     Bound("forward", [], 7, c),
     Bound("tx_type", [Modify(ToLower), txType], 8, c),
     Bound("mpt_issuance_id", [], 9, c),
     Bound("delegate", [delegate], 10, c)]
  }

  /** The second version redefines two fields. */
  function AccountTxV2(lib: Libxrpl, clio: bool, store: Specifier -> Value, c: Converters, strict: Converters,
                       txType: Item, delegate: Item): seq<FieldDef>
  {
    AccountTx(lib, clio, store, c, txType, delegate)
    + [Bound("binary", [], 6, strict), Bound("forward", [], 7, strict)]
  }

  lemma LedgerBoundReparses(key: string, member: nat, c: Converters)
    requires key !in LEDGER_KEYS
    ensures Reparses(Bound(key, LedgerBound(), member, c))
  {
    LedgerBoundSettles(key);
  }

  lemma TxLimitReparses(c: Converters)
    ensures Reparses(Bound("limit", ClampedItems(1, 1, 1000), 4, c))
  {
    ClampedSettles(1, 1, 1000, "limit");
    NotLedgerKey("limit");
    hide ClampedItems, Settles;
  }

  lemma MarkerReparses(c: Converters)
    ensures Reparses(Bound("marker", MarkerItems(), 5, c))
  {
    MarkerSettles("marker");
    NotLedgerKey("marker");
    hide MarkerItems, Settles;
  }

  lemma TxTypeReparses(c: Converters, txType: Item)
    requires txType.Requirement?
    ensures Reparses(Bound("tx_type", [Modify(ToLower), txType], 8, c))
  {
    TxTypeSettles(txType, "tx_type");
    NotLedgerKey("tx_type");
  }

  lemma RequirementReparses(key: string, r: Item, binding: Option<Binding>)
    requires r.Requirement? && (binding.Some? ==> binding.value.Binding?)
    ensures Reparses(FieldDef(key, [r], binding, None)) && Reparses(FieldDef(key, [], binding, None))
  {
    InertReparses(FieldDef(key, [r], binding, None));
    InertReparses(FieldDef(key, [], binding, None));
  }

  lemma AccountTxFields(lib: Libxrpl, clio: bool, store: Specifier -> Value, c: Converters, txType: Item,
                        delegate: Item)
    requires txType.Requirement? && delegate.Requirement?
    ensures forall f <- AccountTx(lib, clio, store, c, txType, delegate) :: Reparses(f)
  {
    SelectorReparses(lib, clio, store);
    RequirementReparses("account", Required(), Some(Binding(1, c(1))));
    NotLedgerKey("ledger_index_min");
    NotLedgerKey("ledger_index_max");
    LedgerBoundReparses("ledger_index_min", 2, c);
    LedgerBoundReparses("ledger_index_max", 3, c);
    RequirementReparses("ctid", Type([StringTag]), None);
    TxLimitReparses(c);
    MarkerReparses(c);
    RequirementReparses("binary", Required(), Some(Binding(6, c(6))));
    RequirementReparses("forward", Required(), Some(Binding(7, c(7))));
    TxTypeReparses(c, txType);
    RequirementReparses("mpt_issuance_id", Required(), Some(Binding(9, c(9))));
    RequirementReparses("delegate", delegate, Some(Binding(10, c(10))));
    hide Reparses, LedgerBound, MarkerItems, ClampedItems, Required, Type, LedgerSelector;
  }

  lemma AccountTxReparses(lib: Libxrpl, clio: bool, store: Specifier -> Value, c: Converters, txType: Item,
                          delegate: Item, root: Json)
    requires txType.Requirement? && delegate.Requirement?
    ensures var fields := EffectiveFields(AccountTx(lib, clio, store, c, txType, delegate));
      var out := ParseFields(fields, root, map[]);
      out.result.Ok? ==> ParseFields(fields, out.root, map[]) == out
  {
    AccountTxFields(lib, clio, store, c, txType, delegate);
    hide AccountTx;
    SpecReparses(AccountTx(lib, clio, store, c, txType, delegate), root);
  }

  lemma AccountTxV2Reparses(lib: Libxrpl, clio: bool, store: Specifier -> Value, c: Converters, strict: Converters,
                            txType: Item, delegate: Item, root: Json)
    requires txType.Requirement? && delegate.Requirement?
    ensures var fields := EffectiveFields(AccountTxV2(lib, clio, store, c, strict, txType, delegate));
      var out := ParseFields(fields, root, map[]);
      out.result.Ok? ==> ParseFields(fields, out.root, map[]) == out
  {
    AccountTxFields(lib, clio, store, c, txType, delegate);
    var extra := [Bound("binary", [], 6, strict), Bound("forward", [], 7, strict)];
    InertReparses(extra[0]);
    InertReparses(extra[1]);
    hide AccountTx, Reparses;
    SpecReparses(AccountTxV2(lib, clio, store, c, strict, txType, delegate), root);
  }

  // ------------------------------------------------------------------ get_aggregate_price

  function ArrayLength(accept: nat -> bool): Item {
    Requirement((key: string, v: View) =>
      Accept(v.Some? && v.value.JArray? ==> accept(|v.value.elements|)))
  }

  function CurrencyText(lib: Libxrpl, strict: bool): Item {
    Requirement((key: string, v: View) =>
      Accept(v.Some? ==>
        && v.value.JString? && v.value.s != "" && lib.toCurrency(v.value.s).Some?
        && (strict ==> lib.toCurrency(v.value.s).value !in {lib.badCurrency, lib.noCurrency})))
  }

  function ArrayChecks(): seq<Item> {
    [WithCustomError(Type([ArrayTag]), Status(1, "")),
     WithCustomError(ArrayLength(n => 1 <= n), Status(1, "")),
     WithCustomError(ArrayLength(n => n <= 200), Status(1, ""))]
  }

  function AssetItems(lib: Libxrpl, clio: bool): seq<Item> {
    [Required(),
     ServerConditional(!clio, [WithCustomError(CurrencyText(lib, true), INVALID_PARAMS)]),
     ServerConditional(clio, [WithCustomError(CurrencyText(lib, false), INVALID_PARAMS)])]
  }

  function AggregatePrice(lib: Libxrpl, clio: bool, store: Specifier -> Value, c: Converters, isAccount: string -> bool)
    : seq<FieldDef>
  {
    [LedgerSelector(lib, clio, store),
     Bound("oracles", OraclesItems(clio, ArrayChecks(), isAccount), 1, c),
     Bound("base_asset", AssetItems(lib, clio), 2, c),
     Bound("quote_asset", AssetItems(lib, clio), 3, c),
     Bound("trim", ThresholdItems(clio) + [BetweenUint32(1, 25)], 4, c),
     Bound("time_threshold", ThresholdItems(clio), 5, c)]
  }

  lemma AssetIsInert(lib: Libxrpl, clio: bool)
    ensures Inert(AssetItems(lib, clio))
  {
    var strict, plain := CurrencyText(lib, true), CurrencyText(lib, false);
    WrappedRequirement(strict, INVALID_PARAMS);
    WrappedRequirement(plain, INVALID_PARAMS);
    ConditionalIsInert(!clio, [WithCustomError(strict, INVALID_PARAMS)]);
    ConditionalIsInert(clio, [WithCustomError(plain, INVALID_PARAMS)]);
  }

  lemma AggregatePriceReparses(lib: Libxrpl, clio: bool, store: Specifier -> Value, c: Converters,
                               isAccount: string -> bool, root: Json)
    ensures var fields := EffectiveFields(AggregatePrice(lib, clio, store, c, isAccount));
      var out := ParseFields(fields, root, map[]);
      out.result.Ok? ==> ParseFields(fields, out.root, map[]) == out
  {
    var spec := AggregatePrice(lib, clio, store, c, isAccount);
    SelectorReparses(lib, clio, store);
    OraclesFieldSettles(clio, ArrayChecks(), isAccount, "oracles");
    AssetIsInert(lib, clio);
    ThresholdSettles(clio, 1, 25, "trim");
    ThresholdSettles(clio, 1, 25, "time_threshold");
    NotLedgerKey("oracles");
    NotLedgerKey("trim");
    NotLedgerKey("time_threshold");
    hide Reparses, Settles, OraclesItems, AssetItems, ThresholdItems;
    SettledReparses(spec[1]);
    InertReparses(spec[2]);
    InertReparses(spec[3]);
    SettledReparses(spec[4]);
    SettledReparses(spec[5]);
    SpecReparses(spec, root);
  }
}
