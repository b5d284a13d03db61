/** The specs of subscribe and ledger_entry: parsing a request never throws and never reads an absent
  or wrongly typed value, whatever the request. */
module TotalSpecs {
  import opened JsonDocument
  import opened LedgerEntry
  import opened LedgerSelection
  import opened ShippedSpecs
  import opened SpecChains
  import opened SpecFrame
  import opened SpecItems
  import opened SpecParse
  import S = Subscribe
  import opened Wrappers
  import opened Xrpl

  // ------------------------------------------------------------------ fields that never throw

  /** Whatever the field's items let through, its converter takes. */
  ghost predicate Total(f: FieldDef) {
    && (f.Selects() ==> forall views: seq<View> :: !f.binding.value.select(views).Thrown?)
    && (f.Converts() ==> forall key: string, v: View :: TotalAt(f, key, v))
  }

  predicate TotalAt(f: FieldDef, key: string, v: View)
    requires f.Converts()
  {
    var out := RunProcessors(f.items, key, v);
    out.0.Ok? && out.1.Some? ==> !f.binding.value.convert(key, out.1.value).Thrown?
  }

  lemma TotalField(f: FieldDef, root: Json, input: Input)
    requires Total(f)
    ensures !ParseField(f, root, input).thrown
  {
    hide RunProcessors, SkipsField, ApplyDefaults, BothSpellings, SelectedKey;
    if f.Converts() {
      var key := SelectedKey(f, root);
      assert TotalAt(f, key, Child(root, key));
    }
  }

  lemma {:induction false} TotalFields(fields: seq<FieldDef>, root: Json, input: Input)
    requires forall f <- fields :: Total(f)
    ensures !ParseFields(fields, root, input).thrown
  {
    hide ParseField, Total;
    if fields != [] {
      assert fields[0] in fields;
      TotalField(fields[0], root, input);
      var first := ParseField(fields[0], root, input);
      assert forall f <- fields[1..] :: f in fields;
      TotalFields(fields[1..], first.root, first.input);
    }
  }

  /** No parse of a spec of total fields ends by an exception. */
  lemma TotalSpec(spec: seq<FieldDef>, root: Json)
    requires forall f <- spec :: Total(f)
    ensures !ParseFields(EffectiveFields(spec), root, map[]).thrown
  {
    var fields := EffectiveFields(spec);
    forall f | f in fields ensures f in spec {
      var i :| 0 <= i < |fields| && fields[i] == f;
      EffectiveInRange(Keys(spec), i);
    }
    hide Total, EffectiveFields;
    TotalFields(fields, root, map[]);
  }

  /** A conversion that throws when its reading faults. */
  function OrThrow<T>(v: Option<T>, store: T -> Value): Conversion {
    if v.Some? then Converted(store(v.value)) else Thrown
  }

  function OrReject<T>(v: Option<T>, store: T -> Value): Conversion {
    if v.Some? then Converted(store(v.value)) else Rejected(INVALID_PARAMS)
  }

  // ------------------------------------------------------------------ subscribe

  /** How values are stored in the Input. */
  datatype SubscribeStores = SubscribeStores(
    streams: seq<S.StreamType> -> Value,
    accounts: seq<AccountID> -> Value,
    books: seq<S.OrderBook> -> Value,
    issuances: seq<Uint192> -> Value)

  datatype SubscribeSlot = Streams | Accounts | AccountsProposed | Books | Issuances | Old(key: string)

  const SUBSCRIBE: seq<SubscribeSlot> :=
    [Streams, Accounts, AccountsProposed, Books, Issuances, Old("user"), Old("password"), Old("rt_accounts")]

  function AccountsField(lib: Libxrpl, s: SubscribeStores, key: string, member: nat): FieldDef {
    FieldDef(key, [S.AccountsItem(lib)],
             Some(Binding(member, (k: string, v: Json) => OrThrow(S.ConvertAccounts(lib, v), s.accounts))), None)
  }

  function SubscribeField(lib: Libxrpl, clio: bool, s: SubscribeStores, slot: SubscribeSlot): FieldDef {
    match slot
    case Streams =>
      FieldDef("streams", [S.StreamsItem(clio)],
               Some(Binding(1, (k: string, v: Json) => OrThrow(S.ConvertStreams(v), s.streams))), None)
    case Accounts => AccountsField(lib, s, "accounts", 0)
    case AccountsProposed => AccountsField(lib, s, "accounts_proposed", 2)
    case Books =>
      FieldDef("books", [S.BooksItem(lib)],
               Some(Binding(3, (k: string, v: Json) => OrThrow(S.ConvertBooks(lib, v), s.books))), None)
    case Issuances =>
      FieldDef("mpt_issuances", [S.IssuancesItem(lib)],
               Some(Binding(4, (k: string, v: Json) => OrThrow(S.ConvertIssuances(lib, v), s.issuances))), None)
    case Old(key) => Plain(key, [Deprecated()])
  }

  function SubscribeSpec(lib: Libxrpl, clio: bool, s: SubscribeStores): seq<FieldDef> {
    seq(|SUBSCRIBE|, i requires 0 <= i < |SUBSCRIBE| => SubscribeField(lib, clio, s, SUBSCRIBE[i]))
  }

  lemma SubscribeFieldTotal(lib: Libxrpl, clio: bool, s: SubscribeStores, slot: SubscribeSlot)
    requires WellBehaved(lib)
    ensures Total(SubscribeField(lib, clio, s, slot))
  {
    var f := SubscribeField(lib, clio, s, slot);
    if f.Converts() {
      forall key: string, v: View ensures TotalAt(f, key, v) {
        match slot
        case Streams => S.StreamsConvert(clio, key, v);
        case Books => S.BooksConvert(lib, key, v);
        case Issuances => S.IssuancesConvert(lib, key, v);
        case _ => S.AccountsConvert(lib, key, v);
      }
    }
  }

  /** No subscribe request makes a converter throw or read a wrong type. */
  lemma SubscribeNeverThrows(lib: Libxrpl, clio: bool, s: SubscribeStores, root: Json)
    requires WellBehaved(lib)
    ensures !ParseFields(EffectiveFields(SubscribeSpec(lib, clio, s)), root, map[]).thrown
  {
    var spec := SubscribeSpec(lib, clio, s);
    forall f | f in spec ensures Total(f) {
      var i :| 0 <= i < |spec| && spec[i] == f;
      SubscribeFieldTotal(lib, clio, s, SUBSCRIBE[i]);
    }
    hide Total, SubscribeSpec;
    TotalSpec(spec, root);
  }

  // ------------------------------------------------------------------ ledger_entry

  datatype EntryStores = EntryStores(
    specifier: Specifier -> Value,
    flag: bool -> Value,
    hash: Uint256 -> Value,
    id: Uint192 -> Value,
    account: AccountID -> Value,
    located: Located -> Value)

  datatype EntrySlot =
    | LedgerSlot
    | FlagSlot(key: string)
    | HashSlot(key: string)
    | AccountSlot(key: string, alias: Option<string>, statuses: seq<Status>)
    | IssuanceSlot
    | LocatorSlot(locator: Locator, alias: Option<string>)
    | DeprecatedSlot(key: string)

  /** The spec's fields, in declaration order. */
  const ENTRY_SLOTS: seq<EntrySlot> :=
    [LedgerSlot, FlagSlot("binary"), HashSlot("index"), AccountSlot("account_root", Some("account"), []),
     AccountSlot("did", None, []), HashSlot("check"), LocatorSlot(DepositPreauthKey, None),
     LocatorSlot(DirectoryKey, None), LocatorSlot(EscrowKey, None), LocatorSlot(OfferKey, None),
     HashSlot("payment_channel"), LocatorSlot(RippleStateKey, Some("state")), LocatorSlot(TicketKey, None),
     HashSlot("nft_page"), LocatorSlot(AmmKey, None), LocatorSlot(BridgeKey, None),
     AccountSlot("bridge_account", None, REQUEST), LocatorSlot(ClaimIdKey, None),
     LocatorSlot(CreateAccountClaimIdKey, None), LocatorSlot(OracleKey, None), LocatorSlot(CredentialKey, None),
     IssuanceSlot, LocatorSlot(MptokenKey, None), LocatorSlot(PermissionedDomainKey, None),
     LocatorSlot(VaultKey, None), LocatorSlot(LoanBrokerKey, None), LocatorSlot(LoanKey, None),
     LocatorSlot(DelegateKey, None), LocatorSlot(SponsorshipKey, None), HashSlot("amendments"), HashSlot("fee"),
     HashSlot("hashes"), HashSlot("nft_offer"), HashSlot("nunl"), HashSlot("signer_list"),
     DeprecatedSlot("ledger"), FlagSlot("include_deleted")]

  /** The lenient reading of a flag. */
  function Truthy(v: Json): bool {
    match v
    case JBool(b) => b
    case JInt(i) => i != 0
    case JUint(u) => u <= MAX_INT64 && u != 0
    case JDouble(d) => d != 0.0
    case JString(s) => s != "" && s[0] != NUL
    case JArray(es) => es != []
    case JObject(ms) => ms != []
    case JNull => false
  }

  function HashOf(lib: Libxrpl, v: Json): Option<Uint256> {
    var text :- ReadString(Some(v));
    lib.parseHex256(CStr(text))
  }

  function IdOf(lib: Libxrpl, v: Json): Option<Uint192> {
    var text :- ReadString(Some(v));
    lib.parseHex192(CStr(text))
  }

  function AccountOf(lib: Libxrpl, clio: bool, v: Json): Option<AccountID> {
    var text :- ReadString(Some(v));
    if clio then AccountFromString(lib, text) else lib.accountFromBase58(text)
  }

  function EntryField(lib: Libxrpl, clio: bool, s: EntryStores, slot: EntrySlot, member: nat): FieldDef {
    match slot
    case LedgerSlot => LedgerSelector(lib, clio, s.specifier)
    case FlagSlot(key) =>
      FieldDef(key, [Type([BoolTag])],
               Some(Binding(member, (k: string, v: Json) => Converted(s.flag(Truthy(v))))), None)
    case HashSlot(key) =>
      FieldDef(key, [Wrapped(Form(lib, Hash256, MALFORMED_FIELD), REQUEST)],
               Some(Binding(member, (k: string, v: Json) => OrReject(HashOf(lib, v), s.hash))), None)
    case AccountSlot(key, alias, statuses) =>
      FieldDef(key, [Wrapped(Form(lib, Account, MALFORMED_ADDRESS), statuses)],
               Some(Binding(member, (k: string, v: Json) => OrReject(AccountOf(lib, clio, v), s.account))), alias)
    case IssuanceSlot =>
      FieldDef("mpt_issuance", [Wrapped(Form(lib, Hash192, MALFORMED_FIELD), REQUEST)],
               Some(Binding(member, (k: string, v: Json) => OrReject(IdOf(lib, v), s.id))), None)
    case LocatorSlot(locator, alias) =>
      FieldDef(KeyOf(locator), EntryItems(lib, EntryOf(locator)),
               Some(Binding(member, (k: string, v: Json) =>
                              OrThrow(ConvertLocator(lib, locator, v), s.located))), alias)
    case DeprecatedSlot(key) => Plain(key, [Deprecated()])
  }

  function EntrySpec(lib: Libxrpl, clio: bool, s: EntryStores): seq<FieldDef> {
    seq(|ENTRY_SLOTS|, i requires 0 <= i < |ENTRY_SLOTS| => EntryField(lib, clio, s, ENTRY_SLOTS[i], i))
  }

  lemma LocatorTotal(lib: Libxrpl, clio: bool, s: EntryStores, slot: EntrySlot, member: nat)
    requires slot.LocatorSlot?
    ensures Total(EntryField(lib, clio, s, slot, member))
  {
    var f := EntryField(lib, clio, s, slot, member);
    hide RunProcessors, EntryItems, EntryOf, ConvertLocator, SameShape, KeyOf;
    forall key: string, v: View ensures TotalAt(f, key, v) {
      ProcessorsShape(f.items, key, v);
      if v.Some? {
        LocatorsConvert(lib, slot.locator, key, v.value);
      }
    }
  }

  lemma EntryFieldTotal(lib: Libxrpl, clio: bool, s: EntryStores, slot: EntrySlot, member: nat)
    ensures Total(EntryField(lib, clio, s, slot, member))
  {
    hide RunProcessors, EntryItems, ConvertLocator;
    if slot.LocatorSlot? {
      LocatorTotal(lib, clio, s, slot, member);
    }
  }

  /** No ledger_entry request makes a converter throw or read a wrong type. */
  lemma LedgerEntryNeverThrows(lib: Libxrpl, clio: bool, s: EntryStores, root: Json)
    ensures !ParseFields(EffectiveFields(EntrySpec(lib, clio, s)), root, map[]).thrown
  {
    var spec := EntrySpec(lib, clio, s);
    forall f | f in spec ensures Total(f) {
      var i :| 0 <= i < |spec| && spec[i] == f;
      EntryFieldTotal(lib, clio, s, ENTRY_SLOTS[i], i);
    }
    hide Total, EntrySpec;
    TotalSpec(spec, root);
  }
}
