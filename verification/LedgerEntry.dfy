/** The ledger_entry command: every located object its spec lets through is unpacked by its
  converter without a throw or a wrongly typed read. */
module LedgerEntry {
  import opened JsonDocument
  import opened ElementLoops
  import opened SpecItems
  import opened SpecChains
  import opened SpecFrame
  import opened SpecIdempotence
  import opened Wrappers
  import opened Xrpl

  const MALFORMED_REQUEST := Status(20, "malformedRequest")
  const MALFORMED_ADDRESS := Status(21, "malformedAddress")
  const MALFORMED_OWNER := Status(22, "malformedOwner")
  const MALFORMED_DOCUMENT_ID := Status(23, "malformedDocumentID")
  const MALFORMED_CURRENCY := Status(24, "malformedCurrency")
  const MALFORMED_CREDENTIALS := Status(25, "malformedAuthorizedCredentials")
  const MALFORMED_FIELD := Status(26, "")

  // ------------------------------------------------------------------ requirements

  predicate IsBase58Account(lib: Libxrpl, v: Json) {
    v.JString? && ParseBase58Account(lib, v.s).Some? && ParseBase58Account(lib, v.s).value != lib.xrpAccount
  }

  predicate IsCredentialType(lib: Libxrpl, v: Json) {
    v.JString? && lib.unHex(v.s).Some? && 0 < |lib.unHex(v.s).value| <= lib.maxCredentialType
  }

  /** A currency, and for anything but XRP an issuer; XRP must not have one. */
  predicate IsCurrencyIssue(lib: Libxrpl, v: Json) {
    var currency, issuer := CurrencyOf(lib, Some(v)), Child(v, "issuer");
    v.JObject? && currency.Some?
    && if currency.value == lib.xrpCurrency then issuer.None?
       else issuer.Some? && issuer.value.JString? && lib.toIssuer(issuer.value.s).Some?
  }

  /** Two different strings that are both base58 accounts. */
  predicate IsAccountPair(lib: Libxrpl, v: Json) {
    v.JArray? && |v.elements| == 2
    && v.elements[0].JString? && v.elements[1].JString? && v.elements[0].s != v.elements[1].s
    && ParseBase58Account(lib, v.elements[0].s).Some? && ParseBase58Account(lib, v.elements[1].s).Some?
  }

  predicate IsCredential(lib: Libxrpl, v: Json) {
    var issuer, kind := Child(v, "issuer"), Child(v, "credential_type");
    v.JObject? && issuer.Some? && IsBase58Account(lib, issuer.value)
    && kind.Some? && IsCredentialType(lib, kind.value)
  }

  predicate IsCredentials(lib: Libxrpl, v: Json) {
    v.JArray? && 0 < |v.elements| <= lib.maxCredentials && forall e <- v.elements :: IsCredential(lib, e)
  }

  /** An item in its custom errors, the outermost last. */
  function Wrapped(item: Item, statuses: seq<Status>): Item {
    if statuses == [] then item
    else WithCustomError(Wrapped(item, statuses[..|statuses| - 1]), statuses[|statuses| - 1])
  }

  // ------------------------------------------------------------------ what a sub-field holds

  /** The kinds of sub-field an object form is made of. */
  datatype Need =
    | Account
    | Hash256
    | Hash192
    | Number
    | DocumentId
    | CredentialType
    | CurrencyCode
    | CurrencyIssue(typed: bool)
    | AccountPair
    | Credentials

  /** A sub-field with the statuses its items are wrapped in. */
  datatype Sub = Sub(key: string, required: bool, need: Need, missing: seq<Status>, bad: seq<Status>)

  /** What the validator of a kind accepts of a present value. */
  predicate HasForm(lib: Libxrpl, need: Need, v: Json) {
    match need
    case Account => IsBase58Account(lib, v)
    case Hash256 => v.JString? && lib.parseHex256(CStr(v.s)).Some?
    case Hash192 => v.JString? && lib.parseHex192(CStr(v.s)).Some?
    case Number => IsUint32(v)
    case DocumentId => IsUint32(v) || v.JString?
    case CredentialType => IsCredentialType(lib, v)
    case CurrencyCode => v.JString? && v.s != "" && lib.toCurrency(v.s).Some?
    case CurrencyIssue(_) => IsCurrencyIssue(lib, v)
    case AccountPair => IsAccountPair(lib, v)
    case Credentials => IsCredentials(lib, v)
  }

  /** The validator of a kind: an absent field passes. */
  function Form(lib: Libxrpl, need: Need, status: Status): Item {
    Requirement((key: string, v: View) => if v.None? || HasForm(lib, need, v.value) then Ok else Fail(status))
  }

  function NeedItems(lib: Libxrpl, need: Need, bad: seq<Status>): seq<Item> {
    match need
    case Account => [Wrapped(Form(lib, need, MALFORMED_ADDRESS), bad)]
    case Hash256 => [Wrapped(Form(lib, need, MALFORMED_FIELD), bad)]
    case Hash192 => [Wrapped(Form(lib, need, MALFORMED_FIELD), bad)]
    case Number => [Wrapped(Form(lib, need, INVALID_PARAMS), bad)]
    case DocumentId => [Wrapped(Form(lib, need, INVALID_PARAMS), bad)] + [Wrapped(Modify(ToNumber), bad)]
    case CredentialType =>
      [Wrapped(Type([StringTag]), bad)] + [Wrapped(Form(lib, need, MALFORMED_CREDENTIALS), [])]
    case CurrencyCode => [Wrapped(Form(lib, need, MALFORMED_CURRENCY), [])]
    case CurrencyIssue(typed) =>
      (if typed then [Wrapped(Type([ObjectTag]), bad)] else []) + [Wrapped(Form(lib, need, MALFORMED_REQUEST), [])]
    case AccountPair => [Wrapped(Form(lib, need, MALFORMED_ADDRESS), [])]
    case Credentials => [Wrapped(Form(lib, need, MALFORMED_CREDENTIALS), [])]
  }

  function SubItems(lib: Libxrpl, sub: Sub): seq<Item> {
    (if sub.required then [Wrapped(Required(), sub.missing)] else []) + NeedItems(lib, sub.need, sub.bad)
  }

  // ------------------------------------------------------------------ what the converters read

  datatype Credential = Credential(issuer: AccountID, credentialType: string)

  /** One member of an unpacked entry. */
  datatype Leaf =
    | Absent
    | AccountLeaf(account: AccountID)
    | Hash256Leaf(hash: Uint256)
    | Hash192Leaf(id: Uint192)
    | NumberLeaf(number: nat)
    | TextLeaf(text: string)
    | CurrencyLeaf(currency: Currency)
    | IssueLeaf(issue: Issue)
    | CredentialsLeaf(credentials: seq<Credential>)

  /** A throwing extractor and an unchecked read; None is a fault. */
  function ReadAccount(lib: Libxrpl, v: View): Option<AccountID> {
    var text :- ReadString(v);
    AccountFromString(lib, text)
  }

  function ReadHash(lib: Libxrpl, v: View): Option<Uint256> {
    var text :- ReadString(v);
    lib.parseHex256(CStr(text))
  }

  function ReadNumber(v: View): Option<nat> {
    if v.Some? && IsUint32(v.value) then Some(AsUint32(v.value)) else None
  }

  /** The issuer is only read for a currency other than XRP. */
  function ReadIssue(lib: Libxrpl, v: View): Option<Issue> {
    var currency :- CurrencyOf(lib, v);
    if currency == lib.xrpCurrency then Some(Issue(currency, lib.xrpAccount))
    else
      var text :- ReadString(ChildOf(v, "issuer"));
      var issuer :- lib.toIssuer(text);
      Some(Issue(currency, issuer))
  }

  function ReadCredential(lib: Libxrpl, e: Json): Option<Credential> {
    var issuer :- ReadAccount(lib, Child(e, "issuer"));
    var kind :- ReadString(Child(e, "credential_type"));
    Some(Credential(issuer, kind))
  }

  function ReadCredentials(lib: Libxrpl, es: seq<Json>): Option<seq<Credential>> {
    ConvertAll(es, e => ReadCredential(lib, e))
  }

  /** What a converter reads from a child. */
  datatype Kind =
    | AccountRead
    | Hash256Read
    | Hash192Read
    | NumberRead
    | TextRead
    | CurrencyRead
    | IssueRead
    | ElementRead(index: nat)
    | CredentialsRead

  function ReadKind(lib: Libxrpl, kind: Kind, v: View): Option<Leaf> {
    match kind
    case AccountRead =>
      var account :- ReadAccount(lib, v);
      Some(AccountLeaf(account))
    case Hash256Read =>
      var hash :- ReadHash(lib, v);
      Some(Hash256Leaf(hash))
    case Hash192Read =>
      var text :- ReadString(v);
      var id :- lib.parseHex192(CStr(text));
      Some(Hash192Leaf(id))
    case NumberRead =>
      var number :- ReadNumber(v);
      Some(NumberLeaf(number))
    case TextRead =>
      var text :- ReadString(v);
      Some(TextLeaf(text))
    case CurrencyRead =>
      var text :- ReadString(v);
      var currency :- lib.toCurrency(text);
      Some(CurrencyLeaf(currency))
    case IssueRead =>
      var issue :- ReadIssue(lib, v);
      Some(IssueLeaf(issue))
    case ElementRead(i) =>
      if v.None? then None
      else
        var account :- ReadAccount(lib, Element(v.value, i));
        Some(AccountLeaf(account))
    case CredentialsRead =>
      if v.None? || !v.value.JArray? then None
      else
        var credentials :- ReadCredentials(lib, v.value.elements);
        Some(CredentialsLeaf(credentials))
  }

  /** One read of a converter: unconditional, or only when the child is present and of a type. */
  datatype Read = Read(key: string, kind: Kind, guard: Option<Tag>)

  function ReadOne(lib: Libxrpl, read: Read, parent: Json): Option<Leaf> {
    var v := Child(parent, read.key);
    if read.guard.Some? && (v.None? || !Is(read.guard.value, v.value)) then Some(Absent)
    else ReadKind(lib, read.kind, v)
  }

  function ReadAll(lib: Libxrpl, wanted: seq<Read>, parent: Json): (r: Option<seq<Leaf>>)
    ensures r.Some? <==> forall i :: 0 <= i < |wanted| ==> ReadOne(lib, wanted[i], parent).Some?
  {
    if wanted == [] then Some([])
    else
      var first, rest := ReadOne(lib, wanted[0], parent), ReadAll(lib, wanted[1..], parent);
      assert rest.Some? <==> forall i :: 1 <= i < |wanted| ==> ReadOne(lib, wanted[i], parent).Some? by {
        assert forall i :: 1 <= i < |wanted| ==> wanted[i] == wanted[1..][i - 1];
      }
      if first.None? || rest.None? then None else Some([first.value] + rest.value)
  }

  // ------------------------------------------------------------------ entries

  /** An object section and the statuses it is wrapped in. */
  datatype Part = Part(subs: seq<Sub>, statuses: seq<Status>)

  /** A locator: a hash or an object of sections, or an object only. */
  datatype Entry = Entry(allowHash: bool, typeErrors: seq<Status>, hashErrors: seq<Status>, parts: seq<Part>)

  function SectionFields(lib: Libxrpl, subs: seq<Sub>): (fields: seq<SubField>)
    ensures |fields| == |subs|
    ensures forall i :: 0 <= i < |subs| ==> fields[i] == SubField(subs[i].key, SubItems(lib, subs[i]))
  {
    if subs == [] then [] else [SubField(subs[0].key, SubItems(lib, subs[0]))] + SectionFields(lib, subs[1..])
  }

  function PartItem(lib: Libxrpl, part: Part): Item {
    Wrapped(IfType(ObjectTag, [Section(SectionFields(lib, part.subs))]), part.statuses)
  }

  function PartItems(lib: Libxrpl, parts: seq<Part>): seq<Item> {
    if parts == [] then [] else [PartItem(lib, parts[0])] + PartItems(lib, parts[1..])
  }

  function HashItems(lib: Libxrpl, e: Entry): seq<Item> {
    if e.allowHash then [IfType(StringTag, [Wrapped(Form(lib, Hash256, MALFORMED_FIELD), e.hashErrors)])] else []
  }

  function EntryItems(lib: Libxrpl, e: Entry): seq<Item> {
    [Wrapped(Type(if e.allowHash then [StringTag, ObjectTag] else [ObjectTag]), e.typeErrors)]
    + (HashItems(lib, e) + PartItems(lib, e.parts))
  }

  function AllSubs(parts: seq<Part>): seq<Sub> {
    if parts == [] then [] else parts[0].subs + AllSubs(parts[1..])
  }

  ghost predicate DistinctKeys(subs: seq<Sub>) {
    forall i, j :: 0 <= i < j < |subs| ==> subs[i].key != subs[j].key
  }

  datatype Located = Direct(hash: Uint256) | Unpacked(leaves: seq<Leaf>)

  /** A converter: a string is a hash where the entry allows one, anything else is read as an object. */
  function ConvertEntry(lib: Libxrpl, allowHash: bool, wanted: seq<Read>, v: Json): Option<Located> {
    if allowHash && v.JString? then
      var hash :- ReadHash(lib, Some(v));
      Some(Direct(hash))
    else
      var leaves :- ReadAll(lib, wanted, v);
      Some(Unpacked(leaves))
  }

  // ------------------------------------------------------------------ wrappers

  /** Wrapping keeps an item's kind, its acceptance and the value it leaves. */
  lemma {:induction false} WrappedRuns(item: Item, statuses: seq<Status>, key: string, v: View)
    ensures IsRequirement(Wrapped(item, statuses)) <==> IsRequirement(item)
    ensures IsModifier(Wrapped(item, statuses)) <==> IsModifier(item)
    ensures Verify(Wrapped(item, statuses), key, v).Ok? <==> Verify(item, key, v).Ok?
    ensures Apply(Wrapped(item, statuses), key, v).0.Ok? <==> Apply(item, key, v).0.Ok?
    ensures Apply(Wrapped(item, statuses), key, v).1 == Apply(item, key, v).1
  {
    if statuses != [] {
      WrappedRuns(item, statuses[..|statuses| - 1], key, v);
    }
  }

  /** Running a wrapped requirement keeps the value, and succeeds when it accepts. */
  lemma RunRequirement(item: Item, statuses: seq<Status>, key: string, v: View)
    requires IsRequirement(item)
    ensures var out := RunProcessors([Wrapped(item, statuses)], key, v);
      out.1 == v && (out.0.Ok? <==> Verify(item, key, v).Ok?)
  {
    WrappedRuns(item, statuses, key, v);
    RunOne(Wrapped(item, statuses), key, v);
  }

  lemma RunModifier(item: Item, statuses: seq<Status>, key: string, v: View)
    requires IsModifier(item) && !IsRequirement(item)
    ensures var out := RunProcessors([Wrapped(item, statuses)], key, v);
      out.1 == Apply(item, key, v).1 && (out.0.Ok? <==> Apply(item, key, v).0.Ok?)
  {
    WrappedRuns(item, statuses, key, v);
    RunOne(Wrapped(item, statuses), key, v);
  }

  // ------------------------------------------------------------------ sub-fields

  /** What a converter may read where this was validated. */
  predicate Serves(need: Need, kind: Kind) {
    match need
    case Account => kind.AccountRead?
    case Hash256 => kind.Hash256Read?
    case Hash192 => kind.Hash192Read?
    case Number => kind.NumberRead?
    case DocumentId => kind.NumberRead?
    case CredentialType => kind.TextRead?
    case CurrencyCode => kind.CurrencyRead?
    case CurrencyIssue(_) => kind.IssueRead?
    case AccountPair => kind.ElementRead? && kind.index < 2
    case Credentials => kind.CredentialsRead?
  }

  /** A value as its validator leaves it: of the kind's form, and a document id as a number. */
  predicate Settled(lib: Libxrpl, need: Need, v: Json) {
    HasForm(lib, need, v) && (need.DocumentId? ==> IsUint32(v))
  }

  /** A validated value can be read as any kind it serves. */
  lemma FormReads(lib: Libxrpl, need: Need, kind: Kind, v: Json)
    requires Settled(lib, need, v) && Serves(need, kind)
    ensures ReadKind(lib, kind, Some(v)).Some?
  {
    if need.Credentials? {
      CredentialsReadable(lib, v.elements);
    }
  }

  /** A currency and issuer pair is accepted exactly when it converts and gives XRP no issuer. */
  lemma IssueAccepted(lib: Libxrpl, v: Json)
    ensures var issue := ReadIssue(lib, Some(v));
      IsCurrencyIssue(lib, v)
      <==> issue.Some? && (issue.value.currency == lib.xrpCurrency ==> Child(v, "issuer").None?)
  {
  }

  /** A validator alone. */
  lemma FormRun(lib: Libxrpl, need: Need, status: Status, bad: seq<Status>, key: string, v: View)
    ensures var out := RunProcessors([Wrapped(Form(lib, need, status), bad)], key, v);
      out.1 == v && (out.0.Ok? <==> v.None? || HasForm(lib, need, v.value))
  {
    RunRequirement(Form(lib, need, status), bad, key, v);
  }

  /** A validator behind a type check. */
  lemma TypedFormRun(lib: Libxrpl, tags: seq<Tag>, need: Need, status: Status, bad: seq<Status>, key: string, v: View)
    ensures var out := RunProcessors([Wrapped(Type(tags), bad)] + [Wrapped(Form(lib, need, status), [])], key, v);
      out.1 == v && (out.0.Ok? ==> v.None? || HasForm(lib, need, v.value))
  {
    RunFirst(Wrapped(Type(tags), bad), [Wrapped(Form(lib, need, status), [])], key, v);
    RunOne(Wrapped(Type(tags), bad), key, v);
    RunRequirement(Type(tags), bad, key, v);
    FormRun(lib, need, status, [], key, v);
  }

  /** What a sub-field's items let through is absent or settled. */
  lemma NeedRun(lib: Libxrpl, need: Need, bad: seq<Status>, key: string, v: View)
    ensures var out := RunProcessors(NeedItems(lib, need, bad), key, v);
      out.0.Ok? ==> out.1.None? || Settled(lib, need, out.1.value)
  {
    hide RunProcessors, HasForm, Form, Type, Wrapped;
    if need.DocumentId? {
      DocumentIdRun(lib, bad, key, v);
    } else {
      match need {
        case Account => FormRun(lib, need, MALFORMED_ADDRESS, bad, key, v);
        case Hash256 => FormRun(lib, need, MALFORMED_FIELD, bad, key, v);
        case Hash192 => FormRun(lib, need, MALFORMED_FIELD, bad, key, v);
        case Number => FormRun(lib, need, INVALID_PARAMS, bad, key, v);
        case CredentialType => TypedFormRun(lib, [StringTag], need, MALFORMED_CREDENTIALS, bad, key, v);
        case CurrencyCode => FormRun(lib, need, MALFORMED_CURRENCY, [], key, v);
        case CurrencyIssue(typed) =>
          TypedFormRun(lib, [ObjectTag], need, MALFORMED_REQUEST, bad, key, v);
          FormRun(lib, need, MALFORMED_REQUEST, [], key, v);
          var last := [Wrapped(Form(lib, need, MALFORMED_REQUEST), [])];
          assert [] + last == last;
        case AccountPair => FormRun(lib, need, MALFORMED_ADDRESS, [], key, v);
        case Credentials => FormRun(lib, need, MALFORMED_CREDENTIALS, [], key, v);
      }
    }
  }

  lemma DocumentIdRun(lib: Libxrpl, bad: seq<Status>, key: string, v: View)
    ensures var out := RunProcessors(NeedItems(lib, DocumentId, bad), key, v);
      out.0.Ok? ==> out.1.None? || Settled(lib, DocumentId, out.1.value)
  {
    var a, b := Wrapped(Form(lib, DocumentId, INVALID_PARAMS), bad), Wrapped(Modify(ToNumber), bad);
    RunFirst(a, [b], key, v);
    RunOne(a, key, v);
    FormRun(lib, DocumentId, INVALID_PARAMS, bad, key, v);
    RunModifier(Modify(ToNumber), bad, key, v);
    if v.Some? {
      DigitsDoNotRepeat(v.value);
    }
  }

  lemma CredentialsReadable(lib: Libxrpl, es: seq<Json>)
    requires forall e <- es :: IsCredential(lib, e)
    ensures ReadCredentials(lib, es).Some?
  {
    forall i | 0 <= i < |es| ensures ReadCredential(lib, es[i]).Some? {
      assert IsCredential(lib, es[i]);
    }
  }

  /** A sub-field of an object that its items have passed. */
  predicate Passed(lib: Libxrpl, sub: Sub, parent: Json) {
    var v := Child(parent, sub.key);
    if v.None? then !sub.required else Settled(lib, sub.need, v.value)
  }

  lemma SubRun(lib: Libxrpl, sub: Sub, v: View)
    ensures var out := RunProcessors(SubItems(lib, sub), sub.key, v);
      out.0.Ok? ==> if out.1.None? then !sub.required else Settled(lib, sub.need, out.1.value)
  {
    var items := NeedItems(lib, sub.need, sub.bad);
    NeedRun(lib, sub.need, sub.bad, sub.key, v);
    ProcessorsShape(items, sub.key, v);
    hide RunProcessors, NeedItems, Settled, SameShape;
    if sub.required {
      RunFirst(Wrapped(Required(), sub.missing), items, sub.key, v);
      RunOne(Wrapped(Required(), sub.missing), sub.key, v);
      RunRequirement(Required(), sub.missing, sub.key, v);
    } else {
      assert SubItems(lib, sub) == [] + items == items;
    }
  }

  // ------------------------------------------------------------------ sections

  /** After a section ran, each of its sub-fields has passed, those rewritten included. */
  lemma {:induction false} SectionPasses(lib: Libxrpl, subs: seq<Sub>, parent: Json)
    requires DistinctKeys(subs)
    ensures var out := RunSubFields(SectionFields(lib, subs), parent);
      out.0.Ok? ==> forall i :: 0 <= i < |subs| ==> Passed(lib, subs[i], out.1)
  {
    if subs != [] {
      var sub, rest := subs[0], subs[1..];
      var fields := SectionFields(lib, subs);
      assert fields[1..] == SectionFields(lib, rest);
      var step := RunProcessors(SubItems(lib, sub), sub.key, Child(parent, sub.key));
      SubRun(lib, sub, Child(parent, sub.key));
      ProcessorsShape(SubItems(lib, sub), sub.key, Child(parent, sub.key));
      var parent' := SetChild(parent, sub.key, step.1);
      ChildAfterSet(parent, sub.key, step.1, sub.key);
      if step.0.Ok? {
        SubFieldsFrame(SectionFields(lib, rest), parent', sub.key);
        SectionPasses(lib, rest, parent');
        var out := RunSubFields(fields, parent);
        if out.0.Ok? {
          hide RunProcessors, SubItems, SameShape, RunSubFields, Settled;
          forall i | 0 <= i < |subs|
            ensures Passed(lib, subs[i], out.1)
          {
            if i > 0 {
              assert subs[i] == rest[i - 1];
            }
          }
        }
      }
    }
  }

  lemma PartRun(lib: Libxrpl, part: Part, key: string, v: Json)
    requires v.JObject?
    ensures var out := RunProcessors([PartItem(lib, part)], key, Some(v));
      var section := RunSubFields(SectionFields(lib, part.subs), v);
      out.1 == Some(section.1) && (out.0.Ok? <==> section.0.Ok?)
  {
    var section := Section(SectionFields(lib, part.subs));
    var item := IfType(ObjectTag, [section]);
    RunOne(section, key, Some(v));
    RunModifier(item, part.statuses, key, Some(v));
    assert Apply(item, key, Some(v)) == RunProcessors([section], key, Some(v));
  }

  /** The sections in sequence: afterwards every sub-field of each has passed, and children that
    no section names are as they were. */
  lemma {:induction false} PartsRun(lib: Libxrpl, parts: seq<Part>, key: string, v: Json)
    requires v.JObject? && DistinctKeys(AllSubs(parts))
    ensures var out := RunProcessors(PartItems(lib, parts), key, Some(v));
      && out.1.Some? && out.1.value.JObject?
      && (out.0.Ok? ==> forall i :: 0 <= i < |AllSubs(parts)| ==>
            Passed(lib, AllSubs(parts)[i], out.1.value))
      && forall k: string :: (forall i :: 0 <= i < |AllSubs(parts)| ==> AllSubs(parts)[i].key != k) ==>
           Child(out.1.value, k) == Child(v, k)
  {
    if parts != [] {
      var part, rest := parts[0], parts[1..];
      var head, tail, all := part.subs, AllSubs(rest), AllSubs(parts);
      assert forall i :: 0 <= i < |head| ==> all[i] == head[i];
      assert forall i :: 0 <= i < |tail| ==> all[|head| + i] == tail[i];
      RunFirst(PartItem(lib, part), PartItems(lib, rest), key, Some(v));
      RunOne(PartItem(lib, part), key, Some(v));
      PartRun(lib, part, key, v);
      var w := RunSubFields(SectionFields(lib, head), v).1;
      SubFieldsShape(SectionFields(lib, head), v);
      assert w.JObject?;
      SectionPasses(lib, head, v);
      PartsRun(lib, rest, key, w);
      var out := RunProcessors(PartItems(lib, parts), key, Some(v));
      hide *;
      if out.0.Ok? {
        forall i | 0 <= i < |all|
          ensures Passed(lib, all[i], out.1.value)
        {
          if i < |head| {
            forall j | 0 <= j < |tail| ensures tail[j].key != head[i].key {
              assert all[|head| + j].key != all[i].key;
            }
            assert Child(out.1.value, head[i].key) == Child(w, head[i].key);
          } else {
            assert all[i] == tail[i - |head|];
          }
        }
      }
      forall k: string | forall i :: 0 <= i < |all| ==> all[i].key != k
        ensures Child(out.1.value, k) == Child(v, k)
      {
        forall i | 0 <= i < |head| ensures SectionFields(lib, head)[i].key != k {
          assert all[i].key != k;
        }
        SubFieldsFrame(SectionFields(lib, head), v, k);
        forall i | 0 <= i < |tail| ensures tail[i].key != k {
          assert all[|head| + i].key != k;
        }
      }
    }
  }

  // ------------------------------------------------------------------ entries

  /** A value that is no object passes every section untouched. */
  lemma {:induction false} PartsSkip(lib: Libxrpl, parts: seq<Part>, key: string, v: Json)
    requires !v.JObject?
    ensures RunProcessors(PartItems(lib, parts), key, Some(v)) == (Ok, Some(v))
  {
    if parts != [] {
      var part := parts[0];
      RunFirst(PartItem(lib, part), PartItems(lib, parts[1..]), key, Some(v));
      RunOne(PartItem(lib, part), key, Some(v));
      RunModifier(IfType(ObjectTag, [Section(SectionFields(lib, part.subs))]), part.statuses, key, Some(v));
      PartsSkip(lib, parts[1..], key, v);
    }
  }

  /** The hash form is checked for strings only. */
  lemma HashRun(lib: Libxrpl, e: Entry, key: string, v: Json)
    ensures var out := RunProcessors(HashItems(lib, e), key, Some(v));
      && (out.0.Ok? ==> out.1 == Some(v))
      && (out.0.Ok? && e.allowHash && v.JString? ==> ReadHash(lib, Some(v)).Some?)
  {
    if e.allowHash {
      var inner := Wrapped(Form(lib, Hash256, MALFORMED_FIELD), e.hashErrors);
      var item := IfType(StringTag, [inner]);
      RunOne(item, key, Some(v));
      FormRun(lib, Hash256, MALFORMED_FIELD, e.hashErrors, key, Some(v));
      if v.JString? {
        assert Apply(item, key, Some(v)) == RunProcessors([inner], key, Some(v));
      }
    }
  }

  lemma TypeRun(e: Entry, key: string, v: Json)
    ensures var tags := if e.allowHash then [StringTag, ObjectTag] else [ObjectTag];
      var out := RunProcessors([Wrapped(Type(tags), e.typeErrors)], key, Some(v));
      out.1 == Some(v) && (out.0.Ok? <==> v.JObject? || (e.allowHash && v.JString?))
  {
    var tags := if e.allowHash then [StringTag, ObjectTag] else [ObjectTag];
    RunRequirement(Type(tags), e.typeErrors, key, Some(v));
    assert HasType(tags, Some(v)) <==> v.JObject? || (e.allowHash && v.JString?) by {
      assert tags[|tags| - 1] == ObjectTag && (e.allowHash ==> tags[0] == StringTag);
    }
  }

  /** A read is covered when a validated sub-field of its key serves it, which is required exactly if the
    read does not look first. */
  ghost predicate Covered(read: Read, subs: seq<Sub>) {
    exists i :: 0 <= i < |subs| && Covers(subs[i], read)
  }

  predicate Covers(sub: Sub, read: Read) {
    && sub.key == read.key && Serves(sub.need, read.kind)
    && (read.guard.None? <==> sub.required)
    && (read.guard.Some? ==> Fits(sub.need, read.guard.value))
  }

  /** A look at the type does not turn a validated value away. */
  predicate Fits(need: Need, tag: Tag) {
    match need
    case Number => tag.Uint32Tag?
    case Credentials => tag.ArrayTag?
    case Account => tag.StringTag?
    case Hash256 => tag.StringTag?
    case _ => false
  }

  lemma CoveredReads(lib: Libxrpl, subs: seq<Sub>, read: Read, parent: Json)
    requires Covered(read, subs)
    requires forall i :: 0 <= i < |subs| ==> Passed(lib, subs[i], parent)
    ensures ReadOne(lib, read, parent).Some?
    ensures ReadOne(lib, read, parent) == Some(Absent) ==> Child(parent, read.key).None?
  {
    var i :| 0 <= i < |subs| && Covers(subs[i], read);
    assert Passed(lib, subs[i], parent);
    var v := Child(parent, read.key);
    if v.Some? {
      FormReads(lib, subs[i].need, read.kind, v.value);
    }
  }

  /** What an entry's items let through: a hash as it was, or an object whose sub-fields all passed. */
  lemma EntryRuns(lib: Libxrpl, e: Entry, key: string, v: Json)
    requires DistinctKeys(AllSubs(e.parts))
    ensures var out := RunProcessors(EntryItems(lib, e), key, Some(v));
      out.0.Ok? ==>
        && out.1.Some? && SameShape(v, out.1.value)
        && (v.JObject? || (e.allowHash && v.JString?))
        && (v.JString? ==> out.1.value == v && ReadHash(lib, Some(v)).Some?)
        && (v.JObject? ==>
              && out.1.value.JObject?
              && forall i :: 0 <= i < |AllSubs(e.parts)| ==> Passed(lib, AllSubs(e.parts)[i], out.1.value))
  {
    var tags := if e.allowHash then [StringTag, ObjectTag] else [ObjectTag];
    var typeItem, hashItems, parts := Wrapped(Type(tags), e.typeErrors), HashItems(lib, e), PartItems(lib, e.parts);
    ProcessorsShape(EntryItems(lib, e), key, Some(v));
    TypeRun(e, key, v);
    HashRun(lib, e, key, v);
    if v.JObject? {
      PartsRun(lib, e.parts, key, v);
    } else {
      PartsSkip(lib, e.parts, key, v);
    }
    assert EntryItems(lib, e) == [typeItem] + (hashItems + parts);
    hide RunProcessors, PartItems, HashItems, EntryItems, Wrapped, Type, SameShape, ReadHash, Passed;
    RunFirst(typeItem, hashItems + parts, key, Some(v));
    RunOne(typeItem, key, Some(v));
    RunConcat(hashItems, parts, key, Some(v));
  }

  /** Validation implies conversion: whatever an entry's items let through, a converter whose reads
    are covered unpacks without a fault, as a hash exactly when the request gave a string. */
  lemma EntryConverts(lib: Libxrpl, e: Entry, wanted: seq<Read>, key: string, v: Json)
    requires DistinctKeys(AllSubs(e.parts)) && forall read <- wanted :: Covered(read, AllSubs(e.parts))
    ensures var out := RunProcessors(EntryItems(lib, e), key, Some(v));
      out.0.Ok? ==>
        && out.1.Some? && SameShape(v, out.1.value)
        && ConvertEntry(lib, e.allowHash, wanted, out.1.value).Some?
        && (ConvertEntry(lib, e.allowHash, wanted, out.1.value).value.Direct? <==> v.JString?)
  {
    EntryRuns(lib, e, key, v);
    var out := RunProcessors(EntryItems(lib, e), key, Some(v));
    hide RunProcessors, EntryItems, SameShape, ReadHash, ReadOne, Covered, Passed;
    if out.0.Ok? && v.JObject? {
      forall i | 0 <= i < |wanted| ensures ReadOne(lib, wanted[i], out.1.value).Some? {
        CoveredReads(lib, AllSubs(e.parts), wanted[i], out.1.value);
      }
    }
  }

  // ------------------------------------------------------------------ the shipped locators

  const REQUEST: seq<Status> := [MALFORMED_REQUEST]
  const ADDRESS: seq<Status> := [MALFORMED_ADDRESS]
  const OWNER: seq<Status> := [MALFORMED_OWNER]

  /** A hash or an object of one section, with the statuses of a wrong type. */
  function HashOr(typeErrors: seq<Status>, subs: seq<Sub>): Entry {
    Entry(true, typeErrors, REQUEST, [Part(subs, [])])
  }

  /** A required sub-field of the newer locators, which all report a missing one alike. */
  function Needs(key: string, need: Need, bad: seq<Status>): Sub {
    Sub(key, true, need, REQUEST, bad)
  }

  function Bridge(): Part {
    Part([Sub("LockingChainDoor", true, Account, [], []),
          Sub("IssuingChainDoor", true, Account, [], []),
          Sub("LockingChainIssue", true, CurrencyIssue(false), [], []),
          Sub("IssuingChainIssue", true, CurrencyIssue(false), [], [])], REQUEST)
  }

  /** The spec's locator fields that take an object. */
  datatype Locator =
    | DepositPreauthKey
    | DirectoryKey
    | EscrowKey
    | OfferKey
    | RippleStateKey
    | TicketKey
    | AmmKey
    | BridgeKey
    | ClaimIdKey
    | CreateAccountClaimIdKey
    | OracleKey
    | CredentialKey
    | MptokenKey
    | PermissionedDomainKey
    | VaultKey
    | LoanBrokerKey
    | LoanKey
    | DelegateKey
    | SponsorshipKey

  function KeyOf(locator: Locator): string {
    match locator
    case DepositPreauthKey => "deposit_preauth"
    case DirectoryKey => "directory"
    case EscrowKey => "escrow"
    case OfferKey => "offer"
    case RippleStateKey => "ripple_state"
    case TicketKey => "ticket"
    case AmmKey => "amm"
    case BridgeKey => "bridge"
    case ClaimIdKey => "xchain_owned_claim_id"
    case CreateAccountClaimIdKey => "xchain_owned_create_account_claim_id"
    case OracleKey => "oracle"
    case CredentialKey => "credential"
    case MptokenKey => "mptoken"
    case PermissionedDomainKey => "permissioned_domain"
    case VaultKey => "vault"
    case LoanBrokerKey => "loan_broker"
    case LoanKey => "loan"
    case DelegateKey => "delegate"
    case SponsorshipKey => "sponsorship"
  }

  function EntryOf(locator: Locator): Entry {
    match locator
    case DepositPreauthKey =>
      HashOr([], [Sub("owner", true, Account, [], OWNER), Sub("authorized", false, Account, [], []),
        Sub("authorized_credentials", false, Credentials, [], [])])
    case DirectoryKey =>
      HashOr([], [Sub("owner", false, Account, [], []), Sub("dir_root", false, Hash256, [], []),
        Sub("sub_index", false, Number, [], REQUEST)])
    case EscrowKey =>
      HashOr([], [Sub("owner", true, Account, [], OWNER), Sub("seq", true, Number, [], REQUEST)])
    case OfferKey =>
      HashOr([], [Sub("account", true, Account, [], []), Sub("seq", true, Number, [], REQUEST)])
    case RippleStateKey =>
      HashOr([], [Sub("accounts", true, AccountPair, [], []),
        Sub("currency", true, CurrencyCode, [], [])])
    case TicketKey =>
      HashOr([], [Sub("account", true, Account, [], []), Sub("ticket_seq", true, Number, [], REQUEST)])
    case AmmKey =>
      HashOr([], [Needs("asset", CurrencyIssue(true), REQUEST),
        Needs("asset2", CurrencyIssue(true), REQUEST)])
    case BridgeKey => Entry(false, REQUEST, [], [Bridge()])
    case ClaimIdKey =>
      Entry(true, REQUEST, REQUEST, [Bridge(), Part([Sub("xchain_owned_claim_id", true, Number, [], [])], REQUEST)])
    case CreateAccountClaimIdKey =>
      Entry(true, REQUEST, REQUEST,
        [Bridge(), Part([Sub("xchain_owned_create_account_claim_id", true, Number, [], [])], REQUEST)])
    case OracleKey =>
      Entry(true, REQUEST, [MALFORMED_REQUEST, MALFORMED_ADDRESS], [Part([Needs("account", Account, ADDRESS),
        Needs("oracle_document_id", DocumentId, [MALFORMED_DOCUMENT_ID])], [])])
    case CredentialKey =>
      Entry(true, REQUEST, [MALFORMED_REQUEST, MALFORMED_ADDRESS], [Part([Needs("subject", Account, ADDRESS),
        Needs("issuer", Account, ADDRESS), Needs("credential_type", CredentialType, REQUEST)], [])])
    case MptokenKey =>
      HashOr(REQUEST, [Needs("account", Account, ADDRESS), Needs("mpt_issuance_id", Hash192, REQUEST)])
    case PermissionedDomainKey =>
      HashOr(REQUEST, [Needs("seq", Number, REQUEST), Needs("account", Account, ADDRESS)])
    case VaultKey =>
      HashOr(REQUEST, [Needs("seq", Number, REQUEST), Needs("owner", Account, OWNER)])
    case LoanBrokerKey =>
      HashOr(REQUEST, [Needs("seq", Number, REQUEST), Needs("owner", Account, OWNER)])
    case LoanKey =>
      HashOr(REQUEST, [Needs("loan_seq", Number, REQUEST), Needs("loan_broker_id", Hash256, REQUEST)])
    case DelegateKey =>
      HashOr(REQUEST, [Needs("account", Account, ADDRESS), Needs("authorize", Account, ADDRESS)])
    case SponsorshipKey =>
      HashOr(REQUEST, [Needs("sponsor", Account, ADDRESS), Needs("sponsee", Account, ADDRESS)])
  }

  function Must(key: string, kind: Kind): Read { Read(key, kind, None) }

  function IfIs(tag: Tag, key: string, kind: Kind): Read { Read(key, kind, Some(tag)) }

  /** What every bridge converter reads. */
  function BridgeReads(): seq<Read> {
    [Must("LockingChainDoor", AccountRead), Must("IssuingChainDoor", AccountRead),
     Must("LockingChainIssue", IssueRead), Must("IssuingChainIssue", IssueRead)]
  }

  /** What each locator's own converter reads, in its order. */
  function ReadsOf(locator: Locator): seq<Read> {
    match locator
    case DirectoryKey =>
      [IfIs(StringTag, "owner", AccountRead), IfIs(StringTag, "dir_root", Hash256Read),
       IfIs(Uint32Tag, "sub_index", NumberRead)]
    case OfferKey => [Must("account", AccountRead), Must("seq", NumberRead)]
    case EscrowKey => [Must("owner", AccountRead), Must("seq", NumberRead)]
    case TicketKey => [Must("account", AccountRead), Must("ticket_seq", NumberRead)]
    case PermissionedDomainKey => [Must("account", AccountRead), Must("seq", NumberRead)]
    case VaultKey => [Must("owner", AccountRead), Must("seq", NumberRead)]
    case LoanBrokerKey => [Must("owner", AccountRead), Must("seq", NumberRead)]
    case LoanKey => [Must("loan_broker_id", Hash256Read), Must("loan_seq", NumberRead)]
    case DelegateKey => [Must("account", AccountRead), Must("authorize", AccountRead)]
    case SponsorshipKey => [Must("sponsor", AccountRead), Must("sponsee", AccountRead)]
    case MptokenKey => [Must("account", AccountRead), Must("mpt_issuance_id", Hash192Read)]
    case AmmKey => [Must("asset", IssueRead), Must("asset2", IssueRead)]
    case OracleKey => [Must("account", AccountRead), Must("oracle_document_id", NumberRead)]
    case CredentialKey =>
      [Must("subject", AccountRead), Must("issuer", AccountRead), Must("credential_type", TextRead)]
    case DepositPreauthKey =>
      [Must("owner", AccountRead), IfIs(StringTag, "authorized", AccountRead),
       IfIs(ArrayTag, "authorized_credentials", CredentialsRead)]
    case RippleStateKey =>
      [Must("accounts", ElementRead(0)), Must("accounts", ElementRead(1)), Must("currency", CurrencyRead)]
    case BridgeKey => BridgeReads()
    case ClaimIdKey => BridgeReads() + [Must("xchain_owned_claim_id", NumberRead)]
    case CreateAccountClaimIdKey => BridgeReads() + [Must("xchain_owned_create_account_claim_id", NumberRead)]
  }

  /** Only the bridge converter does not look for a string first. */
  function ConvertLocator(lib: Libxrpl, locator: Locator, v: Json): Option<Located> {
    ConvertEntry(lib, !locator.BridgeKey?, ReadsOf(locator), v)
  }

  lemma OnePart(subs: seq<Sub>, statuses: seq<Status>)
    ensures AllSubs([Part(subs, statuses)]) == subs
  {
    assert AllSubs([Part(subs, statuses)]) == subs + AllSubs([Part(subs, statuses)][1..]) == subs + [];
  }

  lemma TwoParts(a: Part, b: Part)
    ensures AllSubs([a, b]) == a.subs + b.subs
  {
    OnePart(b.subs, b.statuses);
    assert [a, b][1..] == [b];
  }

  lemma BridgeKeys(claim: Sub)
    requires forall i :: 0 <= i < 4 ==> Bridge().subs[i].key != claim.key
    ensures DistinctKeys(Bridge().subs) && DistinctKeys(Bridge().subs + [claim])
  {
  }

  lemma LocatorKeys(locator: Locator)
    ensures DistinctKeys(AllSubs(EntryOf(locator).parts))
  {
    hide AllSubs;
    var parts := EntryOf(locator).parts;
    if locator.ClaimIdKey? || locator.CreateAccountClaimIdKey? {
      TwoParts(parts[0], parts[1]);
      assert parts == [parts[0], parts[1]];
      BridgeKeys(parts[1].subs[0]);
      assert parts[1].subs == [parts[1].subs[0]];
      hide DistinctKeys, EntryOf;
    } else {
      SectionKeys(locator);
      OnePart(parts[0].subs, parts[0].statuses);
      assert parts == [Part(parts[0].subs, parts[0].statuses)];
      hide DistinctKeys, EntryOf;
    }
  }

  predicate Older(locator: Locator) {
    locator.DepositPreauthKey? || locator.DirectoryKey? || locator.EscrowKey? || locator.OfferKey?
    || locator.RippleStateKey? || locator.TicketKey? || locator.AmmKey? || locator.BridgeKey?
  }

  lemma SectionKeys(locator: Locator)
    ensures EntryOf(locator).parts != [] && DistinctKeys(EntryOf(locator).parts[0].subs)
  {
    hide EntryOf, DistinctKeys;
    if Older(locator) {
      OlderKeys(locator);
    } else {
      NewerKeys(locator);
    }
  }

  lemma OlderKeys(locator: Locator)
    requires Older(locator)
    ensures EntryOf(locator).parts != [] && DistinctKeys(EntryOf(locator).parts[0].subs)
  {
  }

  lemma NewerKeys(locator: Locator)
    requires !Older(locator)
    ensures EntryOf(locator).parts != [] && DistinctKeys(EntryOf(locator).parts[0].subs)
  {
  }

  lemma AllSubsOf(locator: Locator)
    ensures var parts := EntryOf(locator).parts;
      AllSubs(parts)
      == if locator.ClaimIdKey? || locator.CreateAccountClaimIdKey? then parts[0].subs + parts[1].subs
         else parts[0].subs
  {
    hide AllSubs;
    var parts := EntryOf(locator).parts;
    if locator.ClaimIdKey? || locator.CreateAccountClaimIdKey? {
      TwoParts(parts[0], parts[1]);
      assert parts == [parts[0], parts[1]];
    } else {
      OnePart(parts[0].subs, parts[0].statuses);
      assert parts == [Part(parts[0].subs, parts[0].statuses)];
    }
  }

  /** Where each read of a locator's converter was validated. */
  function ValidatedAt(locator: Locator): seq<nat> {
    match locator
    case DirectoryKey => [0, 1, 2]
    case CredentialKey => [0, 1, 2]
    case DepositPreauthKey => [0, 1, 2]
    case RippleStateKey => [0, 0, 1]
    case BridgeKey => [0, 1, 2, 3]
    case ClaimIdKey => [0, 1, 2, 3, 4]
    case CreateAccountClaimIdKey => [0, 1, 2, 3, 4]
    case PermissionedDomainKey => [1, 0]
    case VaultKey => [1, 0]
    case LoanBrokerKey => [1, 0]
    case LoanKey => [1, 0]
    case _ => [0, 1]
  }

  lemma ObjectReadsCovered(locator: Locator, j: nat)
    requires !locator.ClaimIdKey? && !locator.CreateAccountClaimIdKey? && j < |ReadsOf(locator)|
    ensures |ValidatedAt(locator)| == |ReadsOf(locator)|
    ensures EntryOf(locator).parts != [] && ValidatedAt(locator)[j] < |EntryOf(locator).parts[0].subs|
    ensures Covers(EntryOf(locator).parts[0].subs[ValidatedAt(locator)[j]], ReadsOf(locator)[j])
  {
    hide EntryOf, ReadsOf, ValidatedAt, Covers;
    if Older(locator) {
      OlderReadsCovered(locator, j);
    } else if SequenceFirst(locator) {
      SequenceFirstReadsCovered(locator, j);
    } else {
      NewerReadsCovered(locator, j);
    }
  }

  lemma OlderReadsCovered(locator: Locator, j: nat)
    requires Older(locator)
    requires !locator.ClaimIdKey? && !locator.CreateAccountClaimIdKey? && j < |ReadsOf(locator)|
    ensures |ValidatedAt(locator)| == |ReadsOf(locator)|
    ensures EntryOf(locator).parts != [] && ValidatedAt(locator)[j] < |EntryOf(locator).parts[0].subs|
    ensures Covers(EntryOf(locator).parts[0].subs[ValidatedAt(locator)[j]], ReadsOf(locator)[j])
  {
  }

  /** The converters that read the sequence number before the owner. */
  predicate SequenceFirst(locator: Locator) {
    locator.PermissionedDomainKey? || locator.VaultKey? || locator.LoanBrokerKey? || locator.LoanKey?
  }

  lemma SequenceFirstReadsCovered(locator: Locator, j: nat)
    requires SequenceFirst(locator) && j < |ReadsOf(locator)|
    ensures |ValidatedAt(locator)| == |ReadsOf(locator)|
    ensures EntryOf(locator).parts != [] && ValidatedAt(locator)[j] < |EntryOf(locator).parts[0].subs|
    ensures Covers(EntryOf(locator).parts[0].subs[ValidatedAt(locator)[j]], ReadsOf(locator)[j])
  {
  }

  lemma NewerReadsCovered(locator: Locator, j: nat)
    requires !Older(locator) && !SequenceFirst(locator)
    requires !locator.ClaimIdKey? && !locator.CreateAccountClaimIdKey? && j < |ReadsOf(locator)|
    ensures |ValidatedAt(locator)| == |ReadsOf(locator)|
    ensures EntryOf(locator).parts != [] && ValidatedAt(locator)[j] < |EntryOf(locator).parts[0].subs|
    ensures Covers(EntryOf(locator).parts[0].subs[ValidatedAt(locator)[j]], ReadsOf(locator)[j])
  {
  }

  lemma ClaimReadsCovered(locator: Locator, j: nat)
    requires (locator.ClaimIdKey? || locator.CreateAccountClaimIdKey?) && j < |ReadsOf(locator)|
    ensures |EntryOf(locator).parts| == 2 && j < |EntryOf(locator).parts[0].subs + EntryOf(locator).parts[1].subs|
    ensures Covers((EntryOf(locator).parts[0].subs + EntryOf(locator).parts[1].subs)[j], ReadsOf(locator)[j])
  {
  }

  /** Everything a locator's converter reads has been validated under that key, in a form that can be
    read so, and is required exactly when the converter does not look first. */
  lemma ReadsAreCovered(locator: Locator)
    ensures forall read <- ReadsOf(locator) :: Covered(read, AllSubs(EntryOf(locator).parts))
  {
    AllSubsOf(locator);
    var subs := AllSubs(EntryOf(locator).parts);
    hide AllSubs, ReadsOf, EntryOf, ValidatedAt, Covers;
    forall read | read in ReadsOf(locator) ensures Covered(read, subs) {
      var j :| 0 <= j < |ReadsOf(locator)| && ReadsOf(locator)[j] == read;
      if locator.ClaimIdKey? || locator.CreateAccountClaimIdKey? {
        ClaimReadsCovered(locator, j);
        assert Covers(subs[j], read);
      } else {
        ObjectReadsCovered(locator, j);
        assert Covers(subs[ValidatedAt(locator)[j]], read);
      }
    }
  }

  lemma HashAllowed(locator: Locator)
    ensures EntryOf(locator).allowHash <==> !locator.BridgeKey?
  {
  }

  /** Every located object ledger_entry's spec lets through is unpacked by its locator's converter
    without a fault, as a hash exactly when the request gave a string. */
  lemma LocatorsConvert(lib: Libxrpl, locator: Locator, key: string, v: Json)
    ensures var out := RunProcessors(EntryItems(lib, EntryOf(locator)), key, Some(v));
      out.0.Ok? ==>
        && out.1.Some?
        && ConvertLocator(lib, locator, out.1.value).Some?
        && (ConvertLocator(lib, locator, out.1.value).value.Direct? <==> v.JString?)
  {
    hide *;
    LocatorKeys(locator);
    ReadsAreCovered(locator);
    HashAllowed(locator);
    EntryConverts(lib, EntryOf(locator), ReadsOf(locator), key, v);
    ConversionOf(lib, locator, RunProcessors(EntryItems(lib, EntryOf(locator)), key, Some(v)).1);
  }

  lemma ConversionOf(lib: Libxrpl, locator: Locator, v: View)
    ensures v.Some? ==>
      ConvertLocator(lib, locator, v.value) == ConvertEntry(lib, !locator.BridgeKey?, ReadsOf(locator), v.value)
  {
  }
}
