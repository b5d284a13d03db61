/** The ledger library's decoders, as unknown deterministic functions shared by validators and
  converters, and the helpers built on them. */
module Xrpl {
  import opened JsonDocument
  import opened Wrappers

  type Currency(==,!new)
  type AccountID(==,!new)
  type PublicKey(!new)
  type Uint256(==,!new)
  type Uint192(==,!new)

  datatype Libxrpl = Libxrpl(
    toCurrency: string -> Option<Currency>,
    toIssuer: string -> Option<AccountID>,
    parseHex256: string -> Option<Uint256>,
    parseHex192: string -> Option<Uint192>,
    unHex: string -> Option<seq<int>>,
    isPublicKey: seq<int> -> bool,
    publicKey: seq<int> -> PublicKey,
    publicKeyFromBase58: string -> Option<PublicKey>,
    accountFromBase58: string -> Option<AccountID>,
    accountOf: PublicKey -> AccountID,
    xrpCurrency: Currency,
    badCurrency: Currency,
    noCurrency: Currency,
    xrpAccount: AccountID,
    noAccount: AccountID,
    maxCredentialType: nat,
    maxCredentials: nat)

  const NUL: char := 0 as char

  /** What is known of the library: hex text holds no NUL, and account one is not account zero. */
  ghost predicate WellBehaved(lib: Libxrpl) {
    (forall s: string :: lib.parseHex256(s).Some? ==> NUL !in s)
    && lib.noAccount != lib.xrpAccount
  }

  /** A string read through its C string pointer: it ends at the first NUL. */
  function CStr(s: string): string {
    if s == [] || s[0] == NUL then [] else [s[0]] + CStr(s[1..])
  }

  lemma {:induction false} CStrWhole(s: string)
    requires NUL !in s
    ensures CStr(s) == s
  {
    if s != [] {
      assert forall c <- s[1..] :: c in s;
      CStrWhole(s[1..]);
    }
  }

  predicate Alphanumeric(s: string) {
    forall c <- s :: '0' <= c <= '9' || 'A' <= c <= 'Z' || 'a' <= c <= 'z'
  }

  /** A base58 token, any non-alphanumeric input rejected first. */
  function ParseBase58Account(lib: Libxrpl, s: string): Option<AccountID> {
    if Alphanumeric(s) then lib.accountFromBase58(s) else None
  }

  function ParseBase58PublicKey(lib: Libxrpl, s: string): Option<PublicKey> {
    if Alphanumeric(s) then lib.publicKeyFromBase58(s) else None
  }

  /** An account from a hex public key, a base58 public key or a base58 address, in that order. */
  function AccountFromString(lib: Libxrpl, s: string): Option<AccountID> {
    var blob := lib.unHex(s);
    var key := if blob.Some? && lib.isPublicKey(blob.value) then Some(lib.publicKey(blob.value))
               else ParseBase58PublicKey(lib, s);
    if key.Some? then Some(lib.accountOf(key.value)) else ParseBase58Account(lib, s)
  }

  predicate HexKey(lib: Libxrpl, s: string) {
    lib.unHex(s).Some? && lib.isPublicKey(lib.unHex(s).value)
  }

  /** The texts that name an account: a public key in hex is its account; of the others only alphanumeric
    ones, a base58 public key before a base58 address. */
  lemma AccountLaw(lib: Libxrpl, s: string, account: AccountID)
    ensures AccountFromString(lib, s) == Some(account)
      <==> || (HexKey(lib, s) && account == lib.accountOf(lib.publicKey(lib.unHex(s).value)))
           || (&& !HexKey(lib, s) && Alphanumeric(s)
               && lib.publicKeyFromBase58(s).Some? && account == lib.accountOf(lib.publicKeyFromBase58(s).value))
           || (&& !HexKey(lib, s) && Alphanumeric(s)
               && lib.publicKeyFromBase58(s).None? && lib.accountFromBase58(s) == Some(account))
  {
    hide Alphanumeric;
  }

  // ------------------------------------------------------------------ typed reads

  /** Reading a value as a type it does not have, or reading an absent one, is a fault. */
  function ReadBool(v: View): Option<bool> {
    if v.Some? && v.value.JBool? then Some(v.value.b) else None
  }

  function ReadString(v: View): Option<string> {
    if v.Some? && v.value.JString? then Some(v.value.s) else None
  }

  function ChildOf(v: View, key: string): View {
    if v.Some? then Child(v.value, key) else None
  }

  datatype Issue = Issue(currency: Currency, issuer: AccountID)

  function CurrencyOf(lib: Libxrpl, side: View): Option<Currency> {
    var text :- ReadString(ChildOf(side, "currency"));
    lib.toCurrency(text)
  }
}
