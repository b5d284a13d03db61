/** The subscribe command: what its validators accept, its converters turn into typed values
  without ever throwing or reading a child that is absent or of another type. */
module Subscribe {
  import opened JsonDocument
  import opened ElementLoops
  import opened SpecItems
  import opened Wrappers
  import opened Xrpl

  const INVALID: int := 0
  const ACT_MALFORMED: int := 1
  const STREAM_MALFORMED: int := 2
  const NOT_SUPPORTED: int := 3
  const BAD_ISSUER: int := 4
  const SRC_CUR_MALFORMED: int := 5
  const DST_AMT_MALFORMED: int := 6
  const SRC_ISR_MALFORMED: int := 7
  const DST_ISR_MALFORMED: int := 8
  const BAD_MARKET: int := 9
  const DOMAIN_MALFORMED: int := 10

  function Error(code: int, message: string): Result {
    Fail(Status(code, message))
  }

  // ------------------------------------------------------------------ streams

  datatype StreamType =
    | Ledger | Transactions | TransactionsProposed | BookChanges | Manifests | Validations
    | Server | PeerStatus | Consensus

  const COMMON: seq<string> :=
    ["ledger", "transactions", "transactions_proposed", "book_changes", "manifests", "validations"]
  const LIVE_STREAMS: seq<string> := ["server", "peer_status", "consensus"]

  function VerifyStream(clio: bool, e: Json): Result {
    if !e.JString? then Error(INVALID, "streamNotString")
    else if clio && e.s in LIVE_STREAMS then Error(NOT_SUPPORTED, "")
    else if e.s !in COMMON && (clio || (e.s !in LIVE_STREAMS && e.s != "rt_transactions"))
    then Error(STREAM_MALFORMED, "")
    else Ok
  }

  function VerifyStreams(clio: bool, key: string, v: View): Result {
    if v.None? then Ok
    else if !v.value.JArray? then Error(INVALID, key + "NotArray")
    else FirstFailure(v.value.elements, e => VerifyStream(clio, e))
  }

  function StreamOf(text: string): StreamType {
    if text == "ledger" then Ledger
    else if text == "transactions" then Transactions
    else if text == "transactions_proposed" || text == "rt_transactions" then TransactionsProposed
    else if text == "book_changes" then BookChanges
    else if text == "manifests" then Manifests
    else if text == "validations" then Validations
    else if text == "server" then Server
    else if text == "peer_status" then PeerStatus
    else Consensus
  }

  function ConvertStream(e: Json): Option<StreamType> {
    var text :- ReadString(Some(e));
    Some(StreamOf(text))
  }

  /** The name a stream is requested by. */
  function NameOf(stream: StreamType): string {
    match stream
    case Ledger => "ledger"
    case Transactions => "transactions"
    case TransactionsProposed => "transactions_proposed"
    case BookChanges => "book_changes"
    case Manifests => "manifests"
    case Validations => "validations"
    case Server => "server"
    case PeerStatus => "peer_status"
    case Consensus => "consensus"
  }

  /** An accepted stream converts to the type of that name; only the deprecated alias changes its
    name, and Clio never gets a stream it does not serve. */
  lemma StreamConverts(clio: bool, e: Json)
    requires VerifyStream(clio, e).Ok?
    ensures ConvertStream(e).Some? && e.JString?
    ensures NameOf(ConvertStream(e).value)
         == if e.s == "rt_transactions" then "transactions_proposed" else e.s
    ensures clio ==> !ConvertStream(e).value.Server? && !ConvertStream(e).value.PeerStatus?
                     && !ConvertStream(e).value.Consensus?
  {
    hide StreamOf, NameOf;
    NamesRead(e.s);
    InCommon(e.s);
    InLive(e.s);
  }

  lemma InCommon(s: string)
    ensures s in COMMON <==> s == "ledger" || s == "transactions" || s == "transactions_proposed"
                             || s == "book_changes" || s == "manifests" || s == "validations"
  {
    if s in COMMON {
      var i :| 0 <= i < |COMMON| && COMMON[i] == s;
      assert i < 6;
    }
    assert COMMON[0] == "ledger" && COMMON[1] == "transactions" && COMMON[2] == "transactions_proposed";
    assert COMMON[3] == "book_changes" && COMMON[4] == "manifests" && COMMON[5] == "validations";
  }

  lemma InLive(s: string)
    ensures s in LIVE_STREAMS <==> s == "server" || s == "peer_status" || s == "consensus"
  {
    if s in LIVE_STREAMS {
      var i :| 0 <= i < |LIVE_STREAMS| && LIVE_STREAMS[i] == s;
      assert i < 3;
    }
    assert LIVE_STREAMS[0] == "server" && LIVE_STREAMS[1] == "peer_status" && LIVE_STREAMS[2] == "consensus";
  }

  /** Every name but the deprecated alias reads as the type it names. */
  lemma NamesRead(s: string)
    ensures (s == "ledger" || s == "transactions" || s == "transactions_proposed" || s == "book_changes"
             || s == "manifests" || s == "validations")
      ==> NameOf(StreamOf(s)) == s && !StreamOf(s).Server? && !StreamOf(s).PeerStatus? && !StreamOf(s).Consensus?
    ensures (s == "server" || s == "peer_status" || s == "consensus") ==> NameOf(StreamOf(s)) == s
    ensures s == "rt_transactions" ==>
      StreamOf(s) == TransactionsProposed && NameOf(StreamOf(s)) == "transactions_proposed"
  {
  }

  // ------------------------------------------------------------------ accounts and issuances

  function VerifyAccount(lib: Libxrpl, key: string, e: Json): Result {
    if !e.JString? then Error(INVALID, key + "'sItemNotString")
    else if AccountFromString(lib, e.s).None? then Error(ACT_MALFORMED, key + "'sItemMalformed")
    else Ok
  }

  function VerifyAccounts(lib: Libxrpl, key: string, v: View): Result {
    if v.None? then Ok
    else if !v.value.JArray? then Error(INVALID, key + "NotArray")
    else if |v.value.elements| == 0 then Error(ACT_MALFORMED, key + " malformed.")
    else FirstFailure(v.value.elements, e => VerifyAccount(lib, key, e))
  }

  function ConvertAccount(lib: Libxrpl, e: Json): Option<AccountID> {
    var text :- ReadString(Some(e));
    AccountFromString(lib, text)
  }

  function VerifyIssuance(lib: Libxrpl, e: Json): Result {
    if e.JString? && lib.parseHex192(CStr(e.s)).Some? then Ok else Fail(INVALID_PARAMS)
  }

  function VerifyIssuances(lib: Libxrpl, key: string, v: View): Result {
    if v.None? then Ok
    else if !v.value.JArray? || |v.value.elements| == 0 then Fail(INVALID_PARAMS)
    else FirstFailure(v.value.elements, e => VerifyIssuance(lib, e))
  }

  function ConvertIssuance(lib: Libxrpl, e: Json): Option<Uint192> {
    var text :- ReadString(Some(e));
    lib.parseHex192(CStr(text))
  }

  // ------------------------------------------------------------------ books

  datatype Book = Book(pays: Issue, gets: Issue, domain: Option<Uint256>)

  datatype OrderBook = OrderBook(book: Book, taker: Option<string>, snapshot: bool, both: bool)

  /** What a side's issuer checks report. */
  datatype IssuerErrors = IssuerErrors(
    notString: Status, malformed: Status, accountOne: Status, unneeded: Status, missing: Status)

  const PAYS_ERRORS := IssuerErrors(
    Status(INVALID, "takerPaysIssuerNotString"), Status(SRC_ISR_MALFORMED, ""), Status(SRC_ISR_MALFORMED, ""),
    Status(SRC_ISR_MALFORMED, "Unneeded field 'taker_pays.issuer' for XRP currency specification."),
    Status(SRC_ISR_MALFORMED, "Invalid field 'taker_pays.issuer', expected non-XRP issuer."))

  const GETS_ERRORS := IssuerErrors(
    Status(INVALID, "taker_gets.issuer should be string"),
    Status(DST_ISR_MALFORMED, "Invalid field 'taker_gets.issuer', bad issuer."),
    Status(DST_ISR_MALFORMED, "Invalid field 'taker_gets.issuer', bad issuer account one."),
    Status(DST_ISR_MALFORMED, "Unneeded field 'taker_gets.issuer' for XRP currency specification."),
    Status(DST_ISR_MALFORMED, "Invalid field 'taker_gets.issuer', expected non-XRP issuer."))

  /** The issuer given, or the XRP account. */
  function IssuerOf(lib: Libxrpl, side: View): Option<AccountID> {
    var issuer := ChildOf(side, "issuer");
    if issuer.None? then Some(lib.xrpAccount)
    else
      var text :- ReadString(issuer);
      lib.toIssuer(text)
  }

  function VerifyIssuer(lib: Libxrpl, side: View, currency: Currency, errors: IssuerErrors): Result {
    var given, issuer := ChildOf(side, "issuer"), IssuerOf(lib, side);
    if given.Some? && !given.value.JString? then Fail(errors.notString)
    else if issuer.None? then Fail(errors.malformed)
    else if given.Some? && issuer.value == lib.noAccount then Fail(errors.accountOne)
    else if currency == lib.xrpCurrency && issuer.value != lib.xrpAccount then Fail(errors.unneeded)
    else if currency != lib.xrpCurrency && issuer.value == lib.xrpAccount then Fail(errors.missing)
    else Ok
  }

  function VerifyBook(lib: Libxrpl, key: string, book: Json): Result {
    var both, snapshot, taker := Child(book, "both"), Child(book, "snapshot"), Child(book, "taker");
    var pays, gets, domain := Child(book, "taker_pays"), Child(book, "taker_gets"), Child(book, "domain");
    if !book.JObject? then Error(INVALID, key + "ItemNotObject")
    else if both.Some? && !both.value.JBool? then Error(INVALID, "bothNotBool")
    else if snapshot.Some? && !snapshot.value.JBool? then Error(INVALID, "snapshotNotBool")
    else if taker.Some? && (!taker.value.JString? || AccountFromString(lib, taker.value.s).None?)
    then Error(BAD_ISSUER, "Issuer account malformed.")
    else if pays.None? then Error(INVALID, "Missing field 'taker_pays'")
    else if !pays.value.JObject? then Error(INVALID, "Field 'taker_pays' is not an object")
    else if gets.None? then Error(INVALID, "Missing field 'taker_gets'")
    else if !gets.value.JObject? then Error(INVALID, "Field 'taker_gets' is not an object")
    else if CurrencyOf(lib, pays).None? then Error(SRC_CUR_MALFORMED, "")
    else if CurrencyOf(lib, gets).None? then Error(DST_AMT_MALFORMED, "")
    else if domain.Some? && !domain.value.JString? then Error(DOMAIN_MALFORMED, "")
    else
      var payIssuer := VerifyIssuer(lib, pays, CurrencyOf(lib, pays).value, PAYS_ERRORS);
      var getIssuer := VerifyIssuer(lib, gets, CurrencyOf(lib, gets).value, GETS_ERRORS);
      if payIssuer.Fail? then payIssuer
      else if getIssuer.Fail? then getIssuer
      else if CurrencyOf(lib, pays) == CurrencyOf(lib, gets) && IssuerOf(lib, pays) == IssuerOf(lib, gets)
      then Error(BAD_MARKET, "")
      else if domain.Some? && lib.parseHex256(domain.value.s).None? then Error(DOMAIN_MALFORMED, "")
      else Ok
  }

  function VerifyBooks(lib: Libxrpl, key: string, v: View): Result {
    if v.None? then Ok
    else if !v.value.JArray? then Error(INVALID, key + "NotArray")
    else FirstFailure(v.value.elements, e => VerifyBook(lib, key, e))
  }

  /** A book read with unchecked typed reads and throwing extractors; None is a fault. */
  function ConvertBook(lib: Libxrpl, book: Json): Option<OrderBook> {
    var bothView, snapshotView, takerView := Child(book, "both"), Child(book, "snapshot"), Child(book, "taker");
    var both :- if bothView.Some? then ReadBool(bothView) else Some(false);
    var snapshot :- if snapshotView.Some? then ReadBool(snapshotView) else Some(false);
    var taker :- if takerView.Some? then ReadOptional(takerView) else Some(None);
    var pays, gets, domainView := Child(book, "taker_pays"), Child(book, "taker_gets"), Child(book, "domain");
    var payCurrency :- CurrencyOf(lib, pays);
    var getCurrency :- CurrencyOf(lib, gets);
    var payIssuer :- IssuerOf(lib, pays);
    var getIssuer :- IssuerOf(lib, gets);
    var domain :- if domainView.Some? then ReadDomain(lib, domainView) else Some(None);
    Some(OrderBook(Book(Issue(payCurrency, payIssuer), Issue(getCurrency, getIssuer), domain),
                   taker, snapshot, both))
  }

  function ReadOptional(v: View): Option<Option<string>> {
    var text :- ReadString(v);
    Some(Some(text))
  }

  /** The extractor reads the hex through its C string pointer. */
  function ReadDomain(lib: Libxrpl, v: View): Option<Option<Uint256>> {
    var text :- ReadString(v);
    var hash :- lib.parseHex256(CStr(text));
    Some(Some(hash))
  }

  // What a request says, key by key.

  predicate SaysFlag(book: Json, key: string, flag: bool) {
    Child(book, key) == Some(JBool(flag)) || (Child(book, key).None? && !flag)
  }

  predicate SaysText(book: Json, key: string, text: Option<string>) {
    if text.Some? then Child(book, key) == Some(JString(text.value)) else Child(book, key).None?
  }

  /** A side names its currency, and its issuer unless that is the XRP account. */
  ghost predicate SaysSide(lib: Libxrpl, side: View, issue: Issue) {
    && side.Some?
    && (exists text: string ::
          Child(side.value, "currency") == Some(JString(text)) && lib.toCurrency(text) == Some(issue.currency))
    && ((Child(side.value, "issuer").None? && issue.issuer == lib.xrpAccount)
        || exists text: string ::
             Child(side.value, "issuer") == Some(JString(text)) && lib.toIssuer(text) == Some(issue.issuer))
  }

  ghost predicate SaysDomain(lib: Libxrpl, book: Json, domain: Option<Uint256>) {
    if domain.None? then Child(book, "domain").None?
    else exists text: string ::
      Child(book, "domain") == Some(JString(text)) && lib.parseHex256(CStr(text)) == domain
  }

  /** The book a request describes: the side the taker pays from `taker_pays`, the side it gets from
    `taker_gets`, and flags that are off unless they are given as true. */
  ghost predicate Says(lib: Libxrpl, book: Json, ob: OrderBook) {
    && SaysSide(lib, Child(book, "taker_pays"), ob.book.pays)
    && SaysSide(lib, Child(book, "taker_gets"), ob.book.gets)
    && SaysDomain(lib, book, ob.book.domain)
    && SaysText(book, "taker", ob.taker)
    && SaysFlag(book, "snapshot", ob.snapshot)
    && SaysFlag(book, "both", ob.both)
  }

  lemma SideSays(lib: Libxrpl, side: View, issue: Issue)
    ensures SaysSide(lib, side, issue)
      <==> CurrencyOf(lib, side) == Some(issue.currency) && IssuerOf(lib, side) == Some(issue.issuer)
  {
    hide Child;
    if CurrencyOf(lib, side) == Some(issue.currency) && IssuerOf(lib, side) == Some(issue.issuer) {
      var currency, issuer := Child(side.value, "currency"), Child(side.value, "issuer");
      assert currency == Some(JString(currency.value.s));
      assert issuer.Some? ==> issuer == Some(JString(issuer.value.s));
    }
  }

  lemma DomainSays(lib: Libxrpl, book: Json, domain: Option<Uint256>)
    ensures var v := Child(book, "domain");
      SaysDomain(lib, book, domain)
      <==> if v.None? then domain.None? else domain.Some? && ReadDomain(lib, v) == Some(domain)
  {
    hide Child;
    var v := Child(book, "domain");
    assert v.Some? && v.value.JString? ==> v == Some(JString(v.value.s));
  }

  /** The converter reads a book to what the request says, and to nothing else. */
  lemma BookSays(lib: Libxrpl, book: Json, ob: OrderBook)
    ensures ConvertBook(lib, book) == Some(ob) <==> Says(lib, book, ob)
  {
    SideSays(lib, Child(book, "taker_pays"), ob.book.pays);
    SideSays(lib, Child(book, "taker_gets"), ob.book.gets);
    DomainSays(lib, book, ob.book.domain);
    hide Child, CurrencyOf, IssuerOf, SaysSide, SaysDomain;
  }

  /** XRP pairs with the XRP account, any other currency with another account that is not account
    one. */
  predicate ProperIssue(lib: Libxrpl, issue: Issue) {
    (issue.currency == lib.xrpCurrency <==> issue.issuer == lib.xrpAccount)
    && issue.issuer != lib.noAccount
  }

  /** A market between two different, proper sides, with a valid taker. */
  predicate ProperBook(lib: Libxrpl, ob: OrderBook) {
    && ProperIssue(lib, ob.book.pays)
    && ProperIssue(lib, ob.book.gets)
    && ob.book.pays != ob.book.gets
    && (ob.taker.Some? ==> AccountFromString(lib, ob.taker.value).Some?)
  }

  /** A domain that is given is a hash to its last character. */
  predicate WholeDomain(lib: Libxrpl, domain: View) {
    domain.Some? ==> domain.value.JString? && lib.parseHex256(domain.value.s).Some?
  }

  lemma DomainConverts(lib: Libxrpl, domain: View)
    requires WellBehaved(lib) && WholeDomain(lib, domain) && domain.Some?
    ensures ReadDomain(lib, domain).Some?
  {
    CStrWhole(domain.value.s);
  }

  lemma SideAccepted(lib: Libxrpl, side: View, errors: IssuerErrors)
    requires lib.noAccount != lib.xrpAccount
    requires CurrencyOf(lib, side).Some?
    ensures VerifyIssuer(lib, side, CurrencyOf(lib, side).value, errors).Ok?
      <==> IssuerOf(lib, side).Some?
           && ProperIssue(lib, Issue(CurrencyOf(lib, side).value, IssuerOf(lib, side).value))
  {
  }

  /** Exactly the books that convert without a fault into a proper market, and whose domain is hex
    to its last character, are accepted. */
  lemma BookAccepted(lib: Libxrpl, key: string, book: Json)
    requires WellBehaved(lib)
    ensures var ob := ConvertBook(lib, book);
      VerifyBook(lib, key, book).Ok?
      <==> ob.Some? && ProperBook(lib, ob.value) && WholeDomain(lib, Child(book, "domain"))
  {
    hide AccountFromString, Child, CurrencyOf, IssuerOf, VerifyIssuer, ProperIssue, ReadDomain;
    var pays, gets, domain := Child(book, "taker_pays"), Child(book, "taker_gets"), Child(book, "domain");
    SidesAreObjects(lib, book);
    if CurrencyOf(lib, pays).Some? && CurrencyOf(lib, gets).Some? {
      SideAccepted(lib, pays, PAYS_ERRORS);
      SideAccepted(lib, gets, GETS_ERRORS);
    }
    if domain.Some? && WholeDomain(lib, domain) {
      DomainConverts(lib, domain);
    }
  }

  /** So a book is accepted exactly when what it says is a proper market, with a domain that is hex to
    its last character. */
  lemma AcceptedBooks(lib: Libxrpl, key: string, book: Json)
    requires WellBehaved(lib)
    ensures VerifyBook(lib, key, book).Ok?
      <==> WholeDomain(lib, Child(book, "domain")) && exists ob :: Says(lib, book, ob) && ProperBook(lib, ob)
  {
    hide *;
    BookAccepted(lib, key, book);
    var converted := ConvertBook(lib, book);
    if converted.Some? {
      BookSays(lib, book, converted.value);
    }
    forall ob | Says(lib, book, ob) ensures converted == Some(ob) {
      BookSays(lib, book, ob);
    }
  }

  lemma SidesAreObjects(lib: Libxrpl, book: Json)
    ensures var pays, gets := Child(book, "taker_pays"), Child(book, "taker_gets");
      && (CurrencyOf(lib, pays).Some? ==> book.JObject? && pays.Some? && pays.value.JObject?)
      && (CurrencyOf(lib, gets).Some? ==> book.JObject? && gets.Some? && gets.value.JObject?)
  {
  }

  // ------------------------------------------------------------------ fields

  function StreamsItem(clio: bool): Item {
    Requirement((key: string, v: View) => VerifyStreams(clio, key, v))
  }

  function AccountsItem(lib: Libxrpl): Item {
    Requirement((key: string, v: View) => VerifyAccounts(lib, key, v))
  }

  function IssuancesItem(lib: Libxrpl): Item {
    Requirement((key: string, v: View) => VerifyIssuances(lib, key, v))
  }

  function BooksItem(lib: Libxrpl): Item {
    Requirement((key: string, v: View) => VerifyBooks(lib, key, v))
  }

  /** What a converter's loop runs over: anything but an array has no elements. */
  function Elements(v: Json): seq<Json> {
    if v.JArray? then v.elements else []
  }

  function ConvertStreams(v: Json): Option<seq<StreamType>> {
    ConvertAll(Elements(v), ConvertStream)
  }

  function ConvertAccounts(lib: Libxrpl, v: Json): Option<seq<AccountID>> {
    ConvertAll(Elements(v), e => ConvertAccount(lib, e))
  }

  function ConvertIssuances(lib: Libxrpl, v: Json): Option<seq<Uint192>> {
    ConvertAll(Elements(v), e => ConvertIssuance(lib, e))
  }

  function ConvertBooks(lib: Libxrpl, v: Json): Option<seq<OrderBook>> {
    ConvertAll(Elements(v), e => ConvertBook(lib, e))
  }

  /** A field of one requirement lets a value through unchanged exactly when the requirement
    accepts it. */
  lemma OneRequirement(r: Item, key: string, v: View)
    requires r.Requirement?
    ensures RunProcessors([r], key, v) == (r.verify(key, v), v)
  {
    var items := [r];
    assert items[1..] == [];
    assert CallIfProcessor(items[0], key, v) == (r.verify(key, v), v);
    if r.verify(key, v).Ok? {
      assert RunProcessors([], key, v) == (Ok, v);
    }
  }

  // What the elements of each field say.

  ghost predicate SaysStreams(es: seq<Json>, streams: seq<StreamType>) {
    |streams| == |es| && forall i :: 0 <= i < |es| ==> SaysStream(es[i], streams[i])
  }

  /** A stream by its name, or by the deprecated one. */
  predicate SaysStream(e: Json, stream: StreamType) {
    e == JString(NameOf(stream)) || (e == JString("rt_transactions") && stream == TransactionsProposed)
  }

  ghost predicate SaysAccounts(lib: Libxrpl, es: seq<Json>, accounts: seq<AccountID>) {
    |accounts| == |es|
    && forall i :: 0 <= i < |es| ==> es[i].JString? && AccountFromString(lib, es[i].s) == Some(accounts[i])
  }

  ghost predicate SaysIssuances(lib: Libxrpl, es: seq<Json>, ids: seq<Uint192>) {
    |ids| == |es| && forall i :: 0 <= i < |es| ==> es[i].JString? && lib.parseHex192(CStr(es[i].s)) == Some(ids[i])
  }

  ghost predicate SaysBooks(lib: Libxrpl, es: seq<Json>, books: seq<OrderBook>) {
    |books| == |es| && forall i :: 0 <= i < |es| ==> Says(lib, es[i], books[i]) && ProperBook(lib, books[i])
  }

  lemma StreamsConvert(clio: bool, key: string, v: View)
    ensures var out := RunProcessors([StreamsItem(clio)], key, v);
      out.0.Ok? ==>
        && out.1 == v
        && (v.Some? ==>
              && v.value.JArray? && ConvertStreams(v.value).Some?
              && SaysStreams(v.value.elements, ConvertStreams(v.value).value))
  {
    OneRequirement(StreamsItem(clio), key, v);
    hide StreamOf, NameOf, COMMON, LIVE_STREAMS, VerifyStream, RunProcessors;
    if v.Some? && VerifyStreams(clio, key, v).Ok? {
      var es := v.value.elements;
      forall i | 0 <= i < |es|
        ensures ConvertStream(es[i]).Some? && SaysStream(es[i], ConvertStream(es[i]).value)
      {
        assert es[i] in es;
        assert VerifyStream(clio, es[i]).Ok?;
        StreamSaid(clio, es[i]);
      }
    }
  }

  lemma StreamSaid(clio: bool, e: Json)
    requires VerifyStream(clio, e).Ok?
    ensures ConvertStream(e).Some? && SaysStream(e, ConvertStream(e).value)
  {
    StreamConverts(clio, e);
    NamesRead(e.s);
    hide StreamOf, NameOf, VerifyStream;
  }

  lemma AccountsConvert(lib: Libxrpl, key: string, v: View)
    ensures var out := RunProcessors([AccountsItem(lib)], key, v);
      out.0.Ok? ==>
        && out.1 == v
        && (v.Some? ==>
              && v.value.JArray? && ConvertAccounts(lib, v.value).Some?
              && SaysAccounts(lib, v.value.elements, ConvertAccounts(lib, v.value).value))
  {
    OneRequirement(AccountsItem(lib), key, v);
    hide AccountFromString, RunProcessors;
    if v.Some? && VerifyAccounts(lib, key, v).Ok? {
      forall e | e in v.value.elements ensures e.JString? && ConvertAccount(lib, e).Some? {
        assert VerifyAccount(lib, key, e).Ok?;
      }
    }
  }

  lemma IssuancesConvert(lib: Libxrpl, key: string, v: View)
    ensures var out := RunProcessors([IssuancesItem(lib)], key, v);
      out.0.Ok? ==>
        && out.1 == v
        && (v.Some? ==>
              && v.value.JArray? && ConvertIssuances(lib, v.value).Some?
              && SaysIssuances(lib, v.value.elements, ConvertIssuances(lib, v.value).value))
  {
    OneRequirement(IssuancesItem(lib), key, v);
    hide RunProcessors, CStr;
    if v.Some? && VerifyIssuances(lib, key, v).Ok? {
      forall e | e in v.value.elements ensures e.JString? && ConvertIssuance(lib, e).Some? {
        assert VerifyIssuance(lib, e).Ok?;
      }
    }
  }

  lemma BooksConvert(lib: Libxrpl, key: string, v: View)
    requires WellBehaved(lib)
    ensures var out := RunProcessors([BooksItem(lib)], key, v);
      out.0.Ok? ==>
        && out.1 == v
        && (v.Some? ==>
              && v.value.JArray? && ConvertBooks(lib, v.value).Some?
              && SaysBooks(lib, v.value.elements, ConvertBooks(lib, v.value).value))
  {
    OneRequirement(BooksItem(lib), key, v);
    hide ConvertBook, VerifyBook, ProperBook, WellBehaved, RunProcessors, Says;
    if v.Some? && VerifyBooks(lib, key, v).Ok? {
      var es := v.value.elements;
      forall i | 0 <= i < |es|
        ensures ConvertBook(lib, es[i]).Some? && ProperBook(lib, ConvertBook(lib, es[i]).value)
        ensures Says(lib, es[i], ConvertBook(lib, es[i]).value)
      {
        assert es[i] in es;
        assert VerifyBook(lib, key, es[i]).Ok?;
        BookAccepted(lib, key, es[i]);
        BookSays(lib, es[i], ConvertBook(lib, es[i]).value);
      }
    }
  }

  /** Validation implies conversion: whatever a field's items let through, its converter reads
    without a fault, element by element, to what the request says; and every book it says is a proper
    market. */
  lemma SubscribeConverts(lib: Libxrpl, clio: bool, key: string, es: seq<Json>)
    requires WellBehaved(lib)
    ensures var v := JArray(es);
      && (RunProcessors([StreamsItem(clio)], key, Some(v)).0.Ok? ==>
            ConvertStreams(v).Some? && SaysStreams(es, ConvertStreams(v).value))
      && (RunProcessors([AccountsItem(lib)], key, Some(v)).0.Ok? ==>
            ConvertAccounts(lib, v).Some? && SaysAccounts(lib, es, ConvertAccounts(lib, v).value))
      && (RunProcessors([IssuancesItem(lib)], key, Some(v)).0.Ok? ==>
            ConvertIssuances(lib, v).Some? && SaysIssuances(lib, es, ConvertIssuances(lib, v).value))
      && (RunProcessors([BooksItem(lib)], key, Some(v)).0.Ok? ==>
            ConvertBooks(lib, v).Some? && SaysBooks(lib, es, ConvertBooks(lib, v).value))
  {
    hide *;
    StreamsConvert(clio, key, Some(JArray(es)));
    AccountsConvert(lib, key, Some(JArray(es)));
    IssuancesConvert(lib, key, Some(JArray(es)));
    BooksConvert(lib, key, Some(JArray(es)));
  }

  /** Nothing but an array is let through. */
  lemma OnlyArrays(lib: Libxrpl, clio: bool, key: string, v: Json)
    requires !v.JArray?
    ensures RunProcessors([StreamsItem(clio)], key, Some(v)).0.Fail?
    ensures RunProcessors([AccountsItem(lib)], key, Some(v)).0.Fail?
    ensures RunProcessors([IssuancesItem(lib)], key, Some(v)).0.Fail?
    ensures RunProcessors([BooksItem(lib)], key, Some(v)).0.Fail?
  {
    OneRequirement(StreamsItem(clio), key, Some(v));
    OneRequirement(AccountsItem(lib), key, Some(v));
    OneRequirement(IssuancesItem(lib), key, Some(v));
    OneRequirement(BooksItem(lib), key, Some(v));
    hide RunProcessors;
  }

  // ------------------------------------------------------------------ exactly what is let through

  /** Clio serves no live stream and does not know the deprecated name. */
  predicate Served(clio: bool, e: Json, stream: StreamType) {
    clio ==> !stream.Server? && !stream.PeerStatus? && !stream.Consensus? && e != JString("rt_transactions")
  }

  lemma StreamAccepted(clio: bool, e: Json)
    ensures VerifyStream(clio, e).Ok? <==> exists stream :: SaysStream(e, stream) && Served(clio, e, stream)
  {
    if e.JString? {
      InCommon(e.s);
      InLive(e.s);
      hide COMMON, LIVE_STREAMS;
      if VerifyStream(clio, e).Ok? {
        StreamSaid(clio, e);
        StreamConverts(clio, e);
        assert SaysStream(e, ConvertStream(e).value);
      }
    }
  }

  /** The arrays that each field lets through: streams that the server serves, at least one account or
    issuance, and proper markets with whole domains. */
  lemma SubscribeAccepts(lib: Libxrpl, clio: bool, key: string, es: seq<Json>)
    requires WellBehaved(lib)
    ensures var v := Some(JArray(es));
      && (RunProcessors([StreamsItem(clio)], key, v).0.Ok?
          <==> forall e <- es :: exists stream :: SaysStream(e, stream) && Served(clio, e, stream))
      && (RunProcessors([AccountsItem(lib)], key, v).0.Ok?
          <==> es != [] && exists accounts :: SaysAccounts(lib, es, accounts))
      && (RunProcessors([IssuancesItem(lib)], key, v).0.Ok?
          <==> es != [] && exists ids :: SaysIssuances(lib, es, ids))
      && (RunProcessors([BooksItem(lib)], key, v).0.Ok?
          <==> (exists books :: SaysBooks(lib, es, books)) && forall e <- es :: WholeDomain(lib, Child(e, "domain")))
  {
    var v := Some(JArray(es));
    hide *;
    SubscribeConverts(lib, clio, key, es);
    StreamsAccepted(clio, key, es);
    AccountsAccepted(lib, key, es);
    IssuancesAccepted(lib, key, es);
    BooksAccepted(lib, key, es);
  }

  lemma StreamsAccepted(clio: bool, key: string, es: seq<Json>)
    ensures RunProcessors([StreamsItem(clio)], key, Some(JArray(es))).0.Ok?
      <==> forall e <- es :: exists stream :: SaysStream(e, stream) && Served(clio, e, stream)
  {
    OneRequirement(StreamsItem(clio), key, Some(JArray(es)));
    hide RunProcessors, VerifyStream, SaysStream, Served;
    forall e | e in es
      ensures VerifyStream(clio, e).Ok? <==> exists stream :: SaysStream(e, stream) && Served(clio, e, stream)
    {
      StreamAccepted(clio, e);
    }
  }

  lemma AccountsAccepted(lib: Libxrpl, key: string, es: seq<Json>)
    ensures RunProcessors([AccountsItem(lib)], key, Some(JArray(es))).0.Ok? ==> es != []
    ensures es != [] && (exists accounts :: SaysAccounts(lib, es, accounts)) ==>
      RunProcessors([AccountsItem(lib)], key, Some(JArray(es))).0.Ok?
  {
    OneRequirement(AccountsItem(lib), key, Some(JArray(es)));
    hide RunProcessors, AccountFromString;
  }

  lemma IssuancesAccepted(lib: Libxrpl, key: string, es: seq<Json>)
    ensures RunProcessors([IssuancesItem(lib)], key, Some(JArray(es))).0.Ok? ==> es != []
    ensures es != [] && (exists ids :: SaysIssuances(lib, es, ids)) ==>
      RunProcessors([IssuancesItem(lib)], key, Some(JArray(es))).0.Ok?
  {
    OneRequirement(IssuancesItem(lib), key, Some(JArray(es)));
    hide RunProcessors, CStr;
  }

  lemma BooksAccepted(lib: Libxrpl, key: string, es: seq<Json>)
    requires WellBehaved(lib)
    ensures RunProcessors([BooksItem(lib)], key, Some(JArray(es))).0.Ok? ==>
      forall e <- es :: WholeDomain(lib, Child(e, "domain"))
    ensures (exists books :: SaysBooks(lib, es, books)) && (forall e <- es :: WholeDomain(lib, Child(e, "domain"))) ==>
      RunProcessors([BooksItem(lib)], key, Some(JArray(es))).0.Ok?
  {
    OneRequirement(BooksItem(lib), key, Some(JArray(es)));
    hide RunProcessors, VerifyBook, Says, ProperBook, WholeDomain, Child, WellBehaved;
    forall e | e in es
      ensures VerifyBook(lib, key, e).Ok?
        <==> WholeDomain(lib, Child(e, "domain")) && exists ob :: Says(lib, e, ob) && ProperBook(lib, ob)
    {
      AcceptedBooks(lib, key, e);
    }
  }
}
