/** Exactly which located objects ledger_entry's spec lets through. */
module EntryAcceptance {
  import opened JsonDocument
  import opened LedgerEntry
  import opened SpecChains
  import opened SpecFrame
  import opened SpecIdempotence
  import opened SpecItems
  import opened Wrappers
  import opened Xrpl

  // ------------------------------------------------------------------ values

  predicate Named(lib: Libxrpl, text: string) {
    ParseBase58Account(lib, text).Some? && ParseBase58Account(lib, text) != Some(lib.xrpAccount)
  }

  predicate ShortHex(lib: Libxrpl, text: string) {
    lib.unHex(text).Some? && 1 <= |lib.unHex(text).value| <= lib.maxCredentialType
  }

  ghost predicate Holds(v: Json, key: string, accepts: string -> bool) {
    exists text: string :: Child(v, key) == Some(JString(text)) && accepts(text)
  }

  /** The values of each form, as a request writes them. */
  ghost predicate Written(lib: Libxrpl, need: Need, v: Json) {
    match need
    case Account => exists text: string :: v == JString(text) && Named(lib, text)
    case Hash256 => exists text: string :: v == JString(text) && lib.parseHex256(CStr(text)).Some?
    case Hash192 => exists text: string :: v == JString(text) && lib.parseHex192(CStr(text)).Some?
    case Number => exists n: nat :: n <= MAX_UINT32 && v in {JInt(n), JUint(n)}
    case DocumentId => v.JString? || exists n: nat :: n <= MAX_UINT32 && v in {JInt(n), JUint(n)}
    case CredentialType => exists text: string :: v == JString(text) && ShortHex(lib, text)
    case CurrencyCode => exists text: string :: text != "" && v == JString(text) && lib.toCurrency(text).Some?
    case CurrencyIssue(_) =>
      v.JObject?
      && ((Holds(v, "currency", text => lib.toCurrency(text) == Some(lib.xrpCurrency)) && Child(v, "issuer").None?)
          || (Holds(v, "currency", text => lib.toCurrency(text) !in {None, Some(lib.xrpCurrency)})
              && Holds(v, "issuer", text => lib.toIssuer(text).Some?)))
    case AccountPair =>
      exists a: string, b: string :: v == JArray([JString(a), JString(b)]) && a != b
        && ParseBase58Account(lib, a).Some? && ParseBase58Account(lib, b).Some?
    case Credentials =>
      v.JArray? && v.elements != [] && |v.elements| <= lib.maxCredentials
      && forall e <- v.elements ::
           && e.JObject?
           && Holds(e, "issuer", text => Named(lib, text))
           && Holds(e, "credential_type", text => ShortHex(lib, text))
  }

  lemma Text(v: View)
    ensures v.Some? && v.value.JString? ==> v == Some(JString(v.value.s))
  {
  }

  lemma NumberWritten(v: Json)
    ensures IsUint32(v) <==> exists n: nat :: n <= MAX_UINT32 && v in {JInt(n), JUint(n)}
  {
    if IsUint32(v) {
      assert v in {JInt(AsUint32(v)), JUint(AsUint32(v))};
    }
  }

  lemma PairWritten(lib: Libxrpl, v: Json)
    ensures IsAccountPair(lib, v) <==> Written(lib, AccountPair, v)
  {
    if IsAccountPair(lib, v) {
      var a, b := v.elements[0].s, v.elements[1].s;
      assert v.elements == [JString(a), JString(b)];
    }
  }

  lemma IssueWritten(lib: Libxrpl, v: Json, typed: bool)
    ensures IsCurrencyIssue(lib, v) <==> Written(lib, CurrencyIssue(typed), v)
  {
    Text(Child(v, "currency"));
    Text(Child(v, "issuer"));
    hide Child;
  }

  lemma CredentialWritten(lib: Libxrpl, e: Json)
    ensures IsCredential(lib, e)
      <==> && e.JObject?
           && Holds(e, "issuer", text => Named(lib, text))
           && Holds(e, "credential_type", text => ShortHex(lib, text))
  {
    Text(Child(e, "issuer"));
    Text(Child(e, "credential_type"));
    hide Child, ParseBase58Account;
  }

  /** A validator accepts exactly the values written in its form. */
  lemma FormAccepted(lib: Libxrpl, need: Need, v: Json)
    ensures HasForm(lib, need, v) <==> Written(lib, need, v)
  {
    Text(Some(v));
    match need
    case Number => NumberWritten(v);
    case DocumentId => NumberWritten(v);
    case CurrencyIssue(typed) => IssueWritten(lib, v, typed);
    case AccountPair => PairWritten(lib, v);
    case Credentials =>
      hide IsCredential, Holds;
      if v.JArray? {
        forall e | e in v.elements
          ensures IsCredential(lib, e)
            <==> && e.JObject?
                 && Holds(e, "issuer", text => Named(lib, text))
                 && Holds(e, "credential_type", text => ShortHex(lib, text))
        {
          CredentialWritten(lib, e);
        }
      }
    case _ => hide ParseBase58Account, CStr;
  }

  // ------------------------------------------------------------------ sub-fields

  /** A document id may also be a text that spells a number. */
  predicate Acceptable(lib: Libxrpl, need: Need, v: Json) {
    HasForm(lib, need, v) && (need.DocumentId? && v.JString? ==> ToNumberValue(v.s).Some?)
  }

  predicate SubAccepts(lib: Libxrpl, sub: Sub, v: View) {
    if v.None? then !sub.required else Acceptable(lib, sub.need, v.value)
  }

  lemma TypedAccepts(lib: Libxrpl, tags: seq<Tag>, need: Need, status: Status, bad: seq<Status>, key: string, v: View)
    requires v.Some? && HasForm(lib, need, v.value) ==> HasType(tags, v)
    ensures RunProcessors([Wrapped(Type(tags), bad)] + [Wrapped(Form(lib, need, status), [])], key, v).0.Ok?
      <==> v.None? || HasForm(lib, need, v.value)
  {
    hide HasForm;
    RunFirst(Wrapped(Type(tags), bad), [Wrapped(Form(lib, need, status), [])], key, v);
    RunOne(Wrapped(Type(tags), bad), key, v);
    RunRequirement(Type(tags), bad, key, v);
    FormRun(lib, need, status, [], key, v);
  }

  lemma OfType(tag: Tag, v: View)
    ensures HasType([tag], v) <==> v.None? || Is(tag, v.value)
  {
    assert [tag][0] == tag;
  }

  lemma NeedAccepts(lib: Libxrpl, need: Need, bad: seq<Status>, key: string, v: View)
    ensures RunProcessors(NeedItems(lib, need, bad), key, v).0.Ok? <==> v.None? || Acceptable(lib, need, v.value)
  {
    if need.DocumentId? {
      IdAccepts(lib, bad, key, v);
    } else if need.CredentialType? {
      OfType(StringTag, v);
      hide RunProcessors, Wrapped, Form, Type, HasType;
      TypedAccepts(lib, [StringTag], need, MALFORMED_CREDENTIALS, bad, key, v);
    } else if need.CurrencyIssue? {
      OfType(ObjectTag, v);
      hide RunProcessors, Wrapped, Form, Type, HasType, CurrencyOf;
      TypedAccepts(lib, [ObjectTag], need, MALFORMED_REQUEST, bad, key, v);
      FormRun(lib, need, MALFORMED_REQUEST, [], key, v);
      var last := [Wrapped(Form(lib, need, MALFORMED_REQUEST), [])];
      assert [] + last == last;
    } else {
      hide RunProcessors, HasForm, Form, Type, Wrapped;
      match need {
        case Account => FormRun(lib, need, MALFORMED_ADDRESS, bad, key, v);
        case Hash256 => FormRun(lib, need, MALFORMED_FIELD, bad, key, v);
        case Hash192 => FormRun(lib, need, MALFORMED_FIELD, bad, key, v);
        case Number => FormRun(lib, need, INVALID_PARAMS, bad, key, v);
        case CurrencyCode => FormRun(lib, need, MALFORMED_CURRENCY, [], key, v);
        case AccountPair => FormRun(lib, need, MALFORMED_ADDRESS, [], key, v);
        case Credentials => FormRun(lib, need, MALFORMED_CREDENTIALS, [], key, v);
      }
    }
  }

  lemma IdAccepts(lib: Libxrpl, bad: seq<Status>, key: string, v: View)
    ensures RunProcessors(NeedItems(lib, DocumentId, bad), key, v).0.Ok?
      <==> v.None? || Acceptable(lib, DocumentId, v.value)
  {
    var a, b := Wrapped(Form(lib, DocumentId, INVALID_PARAMS), bad), Wrapped(Modify(ToNumber), bad);
    RunFirst(a, [b], key, v);
    RunOne(a, key, v);
    FormRun(lib, DocumentId, INVALID_PARAMS, bad, key, v);
    RunModifier(Modify(ToNumber), bad, key, v);
  }

  lemma SubAccepted(lib: Libxrpl, sub: Sub, v: View)
    ensures RunProcessors(SubItems(lib, sub), sub.key, v).0.Ok? <==> SubAccepts(lib, sub, v)
  {
    var items := NeedItems(lib, sub.need, sub.bad);
    NeedAccepts(lib, sub.need, sub.bad, sub.key, v);
    hide RunProcessors, NeedItems, Acceptable;
    if sub.required {
      RunFirst(Wrapped(Required(), sub.missing), items, sub.key, v);
      RunOne(Wrapped(Required(), sub.missing), sub.key, v);
      RunRequirement(Required(), sub.missing, sub.key, v);
    } else {
      assert SubItems(lib, sub) == [] + items == items;
    }
  }

  ghost predicate AllAccept(lib: Libxrpl, subs: seq<Sub>, parent: Json) {
    forall i :: 0 <= i < |subs| ==> SubAccepts(lib, subs[i], Child(parent, subs[i].key))
  }

  /** Sub-fields of other keys do not see each other's rewriting. */
  lemma {:induction false} SectionAccepts(lib: Libxrpl, subs: seq<Sub>, parent: Json)
    requires DistinctKeys(subs)
    ensures RunSubFields(SectionFields(lib, subs), parent).0.Ok? <==> AllAccept(lib, subs, parent)
  {
    if subs != [] {
      var sub, rest := subs[0], subs[1..];
      assert SectionFields(lib, subs)[1..] == SectionFields(lib, rest);
      var step := RunProcessors(SubItems(lib, sub), sub.key, Child(parent, sub.key));
      var parent' := SetChild(parent, sub.key, step.1);
      SubAccepted(lib, sub, Child(parent, sub.key));
      hide SubItems, RunProcessors, SubAccepts;
      SectionAccepts(lib, rest, parent');
      forall i | 0 <= i < |rest| ensures Child(parent', rest[i].key) == Child(parent, rest[i].key) {
        assert rest[i] == subs[i + 1];
        ChildAfterSet(parent, sub.key, step.1, rest[i].key);
      }
      assert AllAccept(lib, rest, parent') <==> AllAccept(lib, rest, parent);
      FirstAccepts(lib, subs, parent);
    }
  }

  lemma FirstAccepts(lib: Libxrpl, subs: seq<Sub>, parent: Json)
    requires subs != []
    ensures AllAccept(lib, subs, parent)
      <==> SubAccepts(lib, subs[0], Child(parent, subs[0].key)) && AllAccept(lib, subs[1..], parent)
  {
    hide SubAccepts, Child;
    assert forall i :: 1 <= i < |subs| ==> subs[i] == subs[1..][i - 1];
    assert forall i :: 0 <= i < |subs[1..]| ==> subs[1..][i] == subs[i + 1];
  }

  lemma AcceptsBoth(lib: Libxrpl, a: seq<Sub>, b: seq<Sub>, parent: Json)
    ensures AllAccept(lib, a + b, parent) <==> AllAccept(lib, a, parent) && AllAccept(lib, b, parent)
  {
    hide SubAccepts, Child;
    assert forall i :: 0 <= i < |a| ==> (a + b)[i] == a[i];
    assert forall i :: 0 <= i < |b| ==> (a + b)[|a| + i] == b[i];
  }

  lemma {:induction false} PartsAccept(lib: Libxrpl, parts: seq<Part>, key: string, v: Json)
    requires v.JObject? && DistinctKeys(AllSubs(parts))
    ensures RunProcessors(PartItems(lib, parts), key, Some(v)).0.Ok? <==> AllAccept(lib, AllSubs(parts), v)
  {
    if parts != [] {
      var part, rest := parts[0], parts[1..];
      var head, tail := part.subs, AllSubs(rest);
      assert AllSubs(parts) == head + tail;
      DistinctParts(head, tail);
      RunFirst(PartItem(lib, part), PartItems(lib, rest), key, Some(v));
      RunOne(PartItem(lib, part), key, Some(v));
      PartRun(lib, part, key, v);
      SectionAccepts(lib, head, v);
      SubFieldsShape(SectionFields(lib, head), v);
      var w := RunSubFields(SectionFields(lib, head), v).1;
      assert w.JObject?;
      PartsAccept(lib, rest, key, w);
      AcceptsBoth(lib, head, tail, v);
      hide *;
      OthersKept(lib, head, tail, v);
    }
  }

  lemma DistinctParts(head: seq<Sub>, tail: seq<Sub>)
    requires DistinctKeys(head + tail)
    ensures DistinctKeys(head) && DistinctKeys(tail)
    ensures forall i, j :: 0 <= i < |head| && 0 <= j < |tail| ==> head[i].key != tail[j].key
  {
    var all := head + tail;
    assert forall i :: 0 <= i < |head| ==> all[i] == head[i];
    assert forall j :: 0 <= j < |tail| ==> all[|head| + j] == tail[j];
  }

  lemma OthersKept(lib: Libxrpl, head: seq<Sub>, tail: seq<Sub>, v: Json)
    requires forall i, j :: 0 <= i < |head| && 0 <= j < |tail| ==> head[i].key != tail[j].key
    ensures AllAccept(lib, tail, RunSubFields(SectionFields(lib, head), v).1) <==> AllAccept(lib, tail, v)
  {
    var fields := SectionFields(lib, head);
    hide SubAccepts, SubItems, RunSubFields, Child;
    forall j | 0 <= j < |tail| ensures Child(RunSubFields(fields, v).1, tail[j].key) == Child(v, tail[j].key) {
      SubFieldsFrame(fields, v, tail[j].key);
    }
  }

  // ------------------------------------------------------------------ entries

  /** A located object is let through exactly if it is the hash form of an entry that has one, or an
    object in which each sub-field has its form, and is there if it is required. */
  lemma EntryAccepts(lib: Libxrpl, e: Entry, key: string, v: Json)
    requires DistinctKeys(AllSubs(e.parts))
    ensures RunProcessors(EntryItems(lib, e), key, Some(v)).0.Ok?
      <==> if v.JObject? then AllAccept(lib, AllSubs(e.parts), v)
           else e.allowHash && v.JString? && lib.parseHex256(CStr(v.s)).Some?
  {
    var tags := if e.allowHash then [StringTag, ObjectTag] else [ObjectTag];
    var typeItem, hashItems, parts := Wrapped(Type(tags), e.typeErrors), HashItems(lib, e), PartItems(lib, e.parts);
    TypeRun(e, key, v);
    HashAccepts(lib, e, key, v);
    HashRun(lib, e, key, v);
    if v.JObject? {
      PartsAccept(lib, e.parts, key, v);
    } else {
      PartsSkip(lib, e.parts, key, v);
    }
    assert EntryItems(lib, e) == [typeItem] + (hashItems + parts);
    hide RunProcessors, PartItems, HashItems, EntryItems, Wrapped, Type, AllAccept, AllSubs;
    RunFirst(typeItem, hashItems + parts, key, Some(v));
    RunOne(typeItem, key, Some(v));
    RunConcat(hashItems, parts, key, Some(v));
  }

  lemma HashAccepts(lib: Libxrpl, e: Entry, key: string, v: Json)
    ensures RunProcessors(HashItems(lib, e), key, Some(v)).0.Ok?
      <==> (e.allowHash && v.JString? ==> lib.parseHex256(CStr(v.s)).Some?)
  {
    if e.allowHash {
      var inner := Wrapped(Form(lib, Hash256, MALFORMED_FIELD), e.hashErrors);
      var item := IfType(StringTag, [inner]);
      RunOne(item, key, Some(v));
      FormRun(lib, Hash256, MALFORMED_FIELD, e.hashErrors, key, Some(v));
      if v.JString? {
        assert Apply(item, key, Some(v)) == RunProcessors([inner], key, Some(v));
      }
    }
  }

  /** So it is for every locator of the shipped spec. */
  lemma LocatorAccepts(lib: Libxrpl, locator: Locator, key: string, v: Json)
    ensures RunProcessors(EntryItems(lib, EntryOf(locator)), key, Some(v)).0.Ok?
      <==> if v.JObject? then AllAccept(lib, AllSubs(EntryOf(locator).parts), v)
           else !locator.BridgeKey? && v.JString? && lib.parseHex256(CStr(v.s)).Some?
  {
    hide *;
    LocatorKeys(locator);
    HashAllowed(locator);
    EntryAccepts(lib, EntryOf(locator), key, v);
  }
}
