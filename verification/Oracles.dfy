/** Clio's `oracles` of get_aggregate_price: the validator rewrites every nested document id in
  place, and the converter then reads each oracle without a rejection. */
module Oracles {
  import opened JsonDocument
  import opened SpecItems
  import opened SpecIdempotence
  import opened Wrappers
  import opened Xrpl

  /** What an oracle's `account` must be: a base58 address other than account zero. */
  function IsAccount(lib: Libxrpl): string -> bool {
    (s: string) => ParseBase58Account(lib, s).Some? && ParseBase58Account(lib, s).value != lib.xrpAccount
  }

  datatype Oracle = Oracle(documentId: nat, account: AccountID)

  /** One oracle as Clio's converter reads it; None is a rejection or a wrongly typed read. */
  function ConvertOracle(lib: Libxrpl, e: Json): Option<Oracle> {
    var id, account := Child(e, "oracle_document_id"), Child(e, "account");
    if id.None? || account.None? || !IsUint32(id.value) || !account.value.JString? then None
    else
      var accountId :- AccountFromString(lib, account.value.s);
      Some(Oracle(AsUint32(id.value), accountId))
  }

  /** The number a request spells as a document id: a number itself or a string holding one. */
  function SpelledId(e: Json): Option<nat> {
    var id := Child(e, "oracle_document_id");
    if id.None? then None
    else if id.value.JString? then ToNumberValue(id.value.s)
    else if IsUint32(id.value) then Some(AsUint32(id.value))
    else None
  }

  /** An account that the request gives by name, and not as account zero. */
  predicate SaysAccount(lib: Libxrpl, e: Json, account: AccountID) {
    var given := Child(e, "account");
    && given.Some? && given.value.JString?
    && ParseBase58Account(lib, given.value.s).Some?
    && ParseBase58Account(lib, given.value.s) != Some(lib.xrpAccount)
    && AccountFromString(lib, given.value.s) == Some(account)
  }

  /** A validated oracle converts, to the document id and the account the request spelled. */
  lemma OracleConverts(lib: Libxrpl, e: Json)
    ensures var (r, e') := RewriteOracle(IsAccount(lib), e);
      r.Ok? ==>
        && ConvertOracle(lib, e').Some?
        && SpelledId(e) == Some(ConvertOracle(lib, e').value.documentId)
        && SaysAccount(lib, e, ConvertOracle(lib, e').value.account)
        && Child(e', "account") == Child(e, "account")
  {
    var (r, e') := RewriteOracle(IsAccount(lib), e);
    if r.Ok? {
      var id := Child(e, "oracle_document_id");
      var (_, id') := StringToNumber(id.value);
      DigitsDoNotRepeat(id.value);
      ChildAfterSet(e, "oracle_document_id", Some(id'), "oracle_document_id");
      ChildAfterSet(e, "oracle_document_id", Some(id'), "account");
      assert AccountFromString(lib, Child(e, "account").value.s).Some?;
    }
  }

  /** The rewritten oracle converts, to the document id and the account the request spelled. */
  predicate ConvertsAsSpelled(lib: Libxrpl, e: Json, e': Json) {
    && ConvertOracle(lib, e').Some?
    && SpelledId(e) == Some(ConvertOracle(lib, e').value.documentId)
    && SaysAccount(lib, e, ConvertOracle(lib, e').value.account)
  }

  lemma FirstOracle(isAccount: string -> bool, es: seq<Json>)
    requires es != []
    ensures var (r, fs) := RewriteOracles(isAccount, es);
      var (tailResult, tail) := RewriteOracles(isAccount, es[1..]);
      && (r.Ok? ==> RewriteOracle(isAccount, es[0]).0.Ok? && tailResult.Ok?)
      && (r.Ok? ==> fs == [RewriteOracle(isAccount, es[0]).1] + tail)
      && (|tail| == |es| - 1 ==> |fs| == |es|)
  {
    hide RewriteOracle;
  }

  /** Validation implies conversion for the whole array. */
  lemma {:induction false} OraclesConvert(lib: Libxrpl, es: seq<Json>)
    ensures var (r, fs) := RewriteOracles(IsAccount(lib), es);
      |fs| == |es| && (r.Ok? ==> forall i :: 0 <= i < |es| ==> ConvertsAsSpelled(lib, es[i], fs[i]))
  {
    if es != [] {
      OracleConverts(lib, es[0]);
      OraclesConvert(lib, es[1..]);
      FirstOracle(IsAccount(lib), es);
      assert RewriteOracle(IsAccount(lib), es[0]).0.Ok?
        ==> ConvertsAsSpelled(lib, es[0], RewriteOracle(IsAccount(lib), es[0]).1);
      hide *;
      var (r, fs) := RewriteOracles(IsAccount(lib), es);
      var tail := RewriteOracles(IsAccount(lib), es[1..]).1;
      if r.Ok? {
        forall i | 0 <= i < |es| ensures ConvertsAsSpelled(lib, es[i], fs[i]) {
          if i > 0 {
            assert fs[i] == tail[i - 1] && es[i] == es[1..][i - 1];
          }
        }
      }
    }
  }
}
