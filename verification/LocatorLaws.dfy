/** What unpacked locators hold: member by member, what the request says under the member's own key. */
module LocatorLaws {
  import opened JsonDocument
  import opened LedgerEntry
  import opened SpecItems
  import opened Wrappers
  import opened Xrpl

  // ------------------------------------------------------------------ what a value says

  ghost predicate SaysAccount(lib: Libxrpl, v: View, account: AccountID) {
    exists text: string :: v == Some(JString(text)) && AccountFromString(lib, text) == Some(account)
  }

  /** A currency by its code, with its issuer by name unless it is XRP. */
  ghost predicate SaysIssue(lib: Libxrpl, v: Json, issue: Issue) {
    && (exists text: string ::
          Child(v, "currency") == Some(JString(text)) && lib.toCurrency(text) == Some(issue.currency))
    && if issue.currency == lib.xrpCurrency then issue.issuer == lib.xrpAccount
       else exists text: string ::
         Child(v, "issuer") == Some(JString(text)) && lib.toIssuer(text) == Some(issue.issuer)
  }

  ghost predicate SaysCredential(lib: Libxrpl, v: Json, c: Credential) {
    SaysAccount(lib, Child(v, "issuer"), c.issuer) && Child(v, "credential_type") == Some(JString(c.credentialType))
  }

  ghost predicate SaysCredentials(lib: Libxrpl, v: Json, cs: seq<Credential>) {
    v.JArray? && |cs| == |v.elements| && forall i :: 0 <= i < |cs| ==> SaysCredential(lib, v.elements[i], cs[i])
  }

  /** A member that is absent says nothing; any other is the one value the child spells. */
  ghost predicate Says(lib: Libxrpl, v: View, leaf: Leaf) {
    if leaf.Absent? then v.None?
    else
      && v.Some?
      && match leaf
         case AccountLeaf(account) => SaysAccount(lib, v, account)
         case Hash256Leaf(hash) => v.value.JString? && lib.parseHex256(CStr(v.value.s)) == Some(hash)
         case Hash192Leaf(id) => v.value.JString? && lib.parseHex192(CStr(v.value.s)) == Some(id)
         case NumberLeaf(n) => v.value == JUint(n) || v.value == JInt(n)
         case TextLeaf(text) => v.value == JString(text)
         case CurrencyLeaf(currency) => v.value.JString? && lib.toCurrency(v.value.s) == Some(currency)
         case IssueLeaf(issue) => SaysIssue(lib, v.value, issue)
         case CredentialsLeaf(cs) => SaysCredentials(lib, v.value, cs)
  }

  lemma AccountSays(lib: Libxrpl, v: View, account: AccountID)
    requires ReadAccount(lib, v) == Some(account)
    ensures SaysAccount(lib, v, account)
  {
    hide AccountFromString;
    assert v == Some(JString(v.value.s));
  }

  lemma IssueSays(lib: Libxrpl, v: Json, issue: Issue)
    requires ReadIssue(lib, Some(v)) == Some(issue)
    ensures SaysIssue(lib, v, issue)
  {
    hide Child;
    var currency, issuer := Child(v, "currency"), Child(v, "issuer");
    assert currency == Some(JString(currency.value.s));
    if issue.currency != lib.xrpCurrency {
      assert issuer == Some(JString(issuer.value.s));
    }
  }

  lemma CredentialsSay(lib: Libxrpl, v: Json, cs: seq<Credential>)
    requires v.JArray? && ReadCredentials(lib, v.elements) == Some(cs)
    ensures SaysCredentials(lib, v, cs)
  {
    hide AccountFromString, Child;
    forall i | 0 <= i < |cs| ensures SaysCredential(lib, v.elements[i], cs[i]) {
      var e := v.elements[i];
      assert ReadCredential(lib, e) == Some(cs[i]);
      AccountSays(lib, Child(e, "issuer"), cs[i].issuer);
      assert Child(e, "credential_type") == Some(JString(Child(e, "credential_type").value.s));
    }
  }

  /** What is read of a value is what it says. */
  lemma KindSays(lib: Libxrpl, kind: Kind, v: Json, leaf: Leaf)
    requires ReadKind(lib, kind, Some(v)) == Some(leaf) && !kind.ElementRead?
    ensures !leaf.Absent? && Says(lib, Some(v), leaf)
  {
    hide SaysAccount, SaysIssue, SaysCredentials, CStr, AccountFromString, ReadIssue, ReadCredentials;
    match leaf
    case AccountLeaf(account) => AccountSays(lib, Some(v), account);
    case IssueLeaf(issue) => IssueSays(lib, v, issue);
    case CredentialsLeaf(cs) => CredentialsSay(lib, v, cs);
    case _ =>
  }

  lemma ElementSays(lib: Libxrpl, i: nat, v: Json, leaf: Leaf)
    requires ReadKind(lib, ElementRead(i), Some(v)) == Some(leaf)
    ensures !leaf.Absent? && Says(lib, Element(v, i), leaf)
  {
    hide SaysAccount, CStr, AccountFromString;
    AccountSays(lib, Element(v, i), leaf.account);
  }

  // ------------------------------------------------------------------ the members of each entry

  /** The keys that an entry's members are requested under, in the order of its members. */
  function MembersOf(locator: Locator): seq<string> {
    match locator
    case DepositPreauthKey => ["owner", "authorized", "authorized_credentials"]
    case DirectoryKey => ["owner", "dir_root", "sub_index"]
    case EscrowKey => ["owner", "seq"]
    case OfferKey => ["account", "seq"]
    case RippleStateKey => ["accounts", "accounts", "currency"]
    case TicketKey => ["account", "ticket_seq"]
    case AmmKey => ["asset", "asset2"]
    case BridgeKey => ["LockingChainDoor", "IssuingChainDoor", "LockingChainIssue", "IssuingChainIssue"]
    case ClaimIdKey =>
      ["LockingChainDoor", "IssuingChainDoor", "LockingChainIssue", "IssuingChainIssue", "xchain_owned_claim_id"]
    case CreateAccountClaimIdKey =>
      ["LockingChainDoor", "IssuingChainDoor", "LockingChainIssue", "IssuingChainIssue",
       "xchain_owned_create_account_claim_id"]
    case OracleKey => ["account", "oracle_document_id"]
    case CredentialKey => ["subject", "issuer", "credential_type"]
    case MptokenKey => ["account", "mpt_issuance_id"]
    case PermissionedDomainKey => ["account", "seq"]
    case VaultKey => ["owner", "seq"]
    case LoanBrokerKey => ["owner", "seq"]
    case LoanKey => ["loan_broker_id", "loan_seq"]
    case DelegateKey => ["account", "authorize"]
    case SponsorshipKey => ["sponsor", "sponsee"]
  }

  /** The value a member is requested by: a child, or one of the two accounts of a trust line. */
  function MemberValue(locator: Locator, w: Json, i: nat): View
    requires i < |MembersOf(locator)|
  {
    var child := Child(w, MembersOf(locator)[i]);
    if locator.RippleStateKey? && i < 2 && child.Some? then Element(child.value, i) else child
  }

  lemma OneReadEach(locator: Locator)
    ensures |ReadsOf(locator)| == |MembersOf(locator)|
  {
  }

  lemma ReadsMembers(locator: Locator, i: nat)
    requires i < |ReadsOf(locator)| == |MembersOf(locator)|
    ensures ReadsOf(locator)[i].key == MembersOf(locator)[i]
    ensures locator.RippleStateKey? && i < 2 ==> ReadsOf(locator)[i].kind == ElementRead(i)
    ensures !(locator.RippleStateKey? && i < 2) ==> !ReadsOf(locator)[i].kind.ElementRead?
  {
  }

  lemma MemberSays(lib: Libxrpl, locator: Locator, w: Json, i: nat, leaf: Leaf)
    requires i < |ReadsOf(locator)| && |MembersOf(locator)| == |ReadsOf(locator)|
    requires ReadOne(lib, ReadsOf(locator)[i], w) == Some(leaf)
    requires leaf.Absent? ==> Child(w, ReadsOf(locator)[i].key).None?
    ensures Says(lib, MemberValue(locator, w, i), leaf)
  {
    hide ReadsOf, MembersOf, Child, Element, ReadKind, Says;
    ReadsMembers(locator, i);
    var read := ReadsOf(locator)[i];
    var v := Child(w, read.key);
    if leaf.Absent? {
      NothingSaid(lib);
    } else if v.Some? {
      if read.kind.ElementRead? {
        ElementSays(lib, i, v.value, leaf);
      } else {
        KindSays(lib, read.kind, v.value, leaf);
      }
    } else {
      NothingRead(lib, read.kind);
    }
  }

  lemma NothingSaid(lib: Libxrpl)
    ensures Says(lib, None, Absent)
  {
  }

  lemma NothingRead(lib: Libxrpl, kind: Kind)
    ensures ReadKind(lib, kind, None).None?
  {
  }

  lemma {:induction false} AllRead(lib: Libxrpl, wanted: seq<Read>, w: Json, leaves: seq<Leaf>)
    requires ReadAll(lib, wanted, w) == Some(leaves)
    ensures |leaves| == |wanted|
    ensures forall i :: 0 <= i < |wanted| ==> ReadOne(lib, wanted[i], w) == Some(leaves[i])
  {
    hide ReadOne;
    if wanted != [] {
      AllRead(lib, wanted[1..], w, leaves[1..]);
      assert forall i :: 1 <= i < |wanted| ==> wanted[i] == wanted[1..][i - 1] && leaves[i] == leaves[1..][i - 1];
    }
  }

  /** Every member of an unpacked entry is what its key's child says. */
  ghost predicate SaysEntry(lib: Libxrpl, locator: Locator, w: Json, leaves: seq<Leaf>) {
    && |leaves| == |MembersOf(locator)|
    && forall i :: 0 <= i < |leaves| ==> Says(lib, MemberValue(locator, w, i), leaves[i])
  }

  /** What a located object that was let through converts to: a string to the hash it spells, an object
    to an entry each of whose members is what the rewritten object says under the member's key, and which
    lacks a member exactly when the object does. */
  lemma LocatorSays(lib: Libxrpl, locator: Locator, key: string, v: Json)
    ensures var out := RunProcessors(EntryItems(lib, EntryOf(locator)), key, Some(v));
      out.0.Ok? ==>
        && out.1.Some? && ConvertLocator(lib, locator, out.1.value).Some?
        && match ConvertLocator(lib, locator, out.1.value).value
           case Direct(hash) => v.JString? && lib.parseHex256(CStr(v.s)) == Some(hash)
           case Unpacked(leaves) => v.JObject? && SaysEntry(lib, locator, out.1.value, leaves)
  {
    hide *;
    LocatorKeys(locator);
    LocatorsConvert(lib, locator, key, v);
    EntryRuns(lib, EntryOf(locator), key, v);
    var out := RunProcessors(EntryItems(lib, EntryOf(locator)), key, Some(v));
    if out.0.Ok? {
      var w := out.1.value;
      match ConvertLocator(lib, locator, w).value
      case Direct(hash) => DirectSays(lib, locator, w, hash);
      case Unpacked(leaves) => UnpackedSays(lib, locator, w, leaves);
    }
  }

  lemma DirectSays(lib: Libxrpl, locator: Locator, w: Json, hash: Uint256)
    requires ConvertLocator(lib, locator, w) == Some(Direct(hash))
    ensures w.JString? && lib.parseHex256(CStr(w.s)) == Some(hash)
  {
    hide CStr, ReadsOf, ReadAll;
  }

  lemma UnpackedSays(lib: Libxrpl, locator: Locator, w: Json, leaves: seq<Leaf>)
    requires ConvertLocator(lib, locator, w) == Some(Unpacked(leaves))
    requires forall i :: 0 <= i < |AllSubs(EntryOf(locator).parts)| ==>
      Passed(lib, AllSubs(EntryOf(locator).parts)[i], w)
    ensures SaysEntry(lib, locator, w, leaves)
  {
    var wanted, subs := ReadsOf(locator), AllSubs(EntryOf(locator).parts);
    hide ReadAll, ReadHash, ReadsOf, EntryOf, AllSubs, Passed, MembersOf, ReadOne, Child, Says, MemberValue;
    ReadsAreCovered(locator);
    AllRead(lib, wanted, w, leaves);
    OneReadEach(locator);
    forall i | 0 <= i < |leaves| ensures Says(lib, MemberValue(locator, w, i), leaves[i]) {
      assert wanted[i] in wanted;
      CoveredReads(lib, subs, wanted[i], w);
      MemberSays(lib, locator, w, i, leaves[i]);
    }
  }
}
