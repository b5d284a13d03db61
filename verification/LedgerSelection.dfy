/** The ledger a request selects, as each of the two servers reads it, and account markers. */
module LedgerSelection {
  import opened JsonDocument
  import opened SpecItems
  import opened Wrappers
  import opened Xrpl

  // ------------------------------------------------------------------ decimal text

  function DigitChar(d: nat): char
    requires d < 10
  {
    ('0' as int + d) as char
  }

  /** How a number prints. */
  function Decimal(n: nat): (s: string)
    ensures s != [] && forall i :: 0 <= i < |s| ==> IsDigit(s[i])
  {
    if n < 10 then [DigitChar(n)] else Decimal(n / 10) + [DigitChar(n % 10)]
  }

  /** Reading what was printed gives the number back. */
  lemma {:induction false} DecimalReadsBack(n: nat)
    ensures Digits(Decimal(n)) == Some(n)
  {
    var s := Decimal(n);
    if n >= 10 {
      DecimalReadsBack(n / 10);
      assert s[..|s| - 1] == Decimal(n / 10) && s[|s| - 1] == DigitChar(n % 10);
    } else {
      assert s[0] == DigitChar(n);
    }
  }

  lemma {:induction false} DigitsAreDigits(s: string)
    ensures Digits(s).Some? ==> s != [] && forall i :: 0 <= i < |s| ==> IsDigit(s[i])
  {
    if |s| > 1 {
      DigitsAreDigits(s[..|s| - 1]);
    }
  }

  lemma UnsignedHasNoPlus(s: string, max: nat)
    requires Unsigned(s, max).Some?
    ensures DropPlus(s) == s
  {
    DigitsAreDigits(s);
  }

  // ------------------------------------------------------------------ one key

  datatype Shortcut = Validated | Current | Closed

  datatype Specifier =
    | Unspecified
    | Named(shortcut: Shortcut)
    | Hash(hash: Uint256)
    | Sequence(seqNo: nat)

  datatype Selection = Selected(specifier: Specifier) | Refused(status: Status)

  const MALFORMED_SELECTION := 11

  /** A named error of a malformed field. */
  function Malformed(message: string): (s: Selection)
    ensures s.Refused?
  {
    Refused(Status(MALFORMED_SELECTION, message))
  }

  function SequenceOr(n: Option<nat>, otherwise: Selection): Selection {
    if n.Some? then Selected(Sequence(n.value)) else otherwise
  }

  function ClioFromIndex(v: Json): Selection {
    var invalid := Malformed("ledgerIndexMalformed");
    if IsUint32(v) then Selected(Sequence(AsUint32(v)))
    else if IsInt64(v) || !v.JString? then invalid
    else if v.s == "validated" then Selected(Named(Validated))
    else SequenceOr(Unsigned(v.s, MAX_UINT32), invalid)
  }

  function XrpldFromIndex(v: Json): Selection {
    var invalid := Malformed("string or number");
    if !v.JString? then (if IsUint32(v) then Selected(Sequence(AsUint32(v))) else invalid)
    else if v.s == "current" || v.s == "" then Selected(Named(Current))
    else if v.s == "validated" then Selected(Named(Validated))
    else if v.s == "closed" then Selected(Named(Closed))
    else SequenceOr(LexicalValue(v.s), invalid)
  }

  function ClioFromHash(lib: Libxrpl, v: Json): Selection {
    if !v.JString? then Malformed("ledger_hashNotString")
    else
      var hash := lib.parseHex256(CStr(v.s));
      if hash.Some? then Selected(Hash(hash.value)) else Malformed("ledger_hashMalformed")
  }

  function XrpldFromHash(lib: Libxrpl, s: string): Selection {
    var hash := lib.parseHex256(CStr(s));
    if hash.Some? then Selected(Hash(hash.value)) else Malformed("hex string")
  }

  // ------------------------------------------------------------------ the request

  /** Clio: the hash wins, but an index beside it must still be well formed. */
  function ClioFromViews(lib: Libxrpl, hash: View, index: View): Selection {
    if hash.Some? then
      var byHash := ClioFromHash(lib, hash.value);
      if byHash.Refused? then byHash
      else if index.Some? && ClioFromIndex(index.value).Refused? then ClioFromIndex(index.value)
      else byHash
    else if index.Some? then ClioFromIndex(index.value)
    else Selected(Unspecified)
  }

  predicate StringOrInteger(v: Json) {
    v.JString? || IsInt64(v)
  }

  /** xrpld: at most one of the three keys. */
  function XrpldFromViews(lib: Libxrpl, legacy: View, hash: View, index: View): Selection {
    if legacy.Some? && (hash.Some? || index.Some?) then
      Malformed("oneOfThree")
    else if hash.Some? && index.Some? then
      Malformed("oneOfTwo")
    else if legacy.Some? then
      if !StringOrInteger(legacy.value) then Malformed("string or number")
      else if legacy.value.JString? && |legacy.value.s| == 64 then XrpldFromHash(lib, legacy.value.s)
      else XrpldFromIndex(legacy.value)
    else if hash.Some? then
      if hash.value.JString? then XrpldFromHash(lib, hash.value.s) else Malformed("hex string")
    else if index.Some? then
      if StringOrInteger(index.value) then XrpldFromIndex(index.value) else Malformed("string or number")
    else Selected(Unspecified)
  }

  function ClioSelect(lib: Libxrpl, root: Json): Selection {
    ClioFromViews(lib, Child(root, "ledger_hash"), Child(root, "ledger_index"))
  }

  function XrpldSelect(lib: Libxrpl, root: Json): Selection {
    XrpldFromViews(lib, Child(root, "ledger"), Child(root, "ledger_hash"), Child(root, "ledger_index"))
  }

  /** The ledger a server answers from: a request that names none gets the server's default. */
  function Resolved(clio: bool, s: Specifier): Specifier {
    if s.Unspecified? then Named(if clio then Validated else Current) else s
  }

  /** The index values that only xrpld understands. */
  predicate XrpldOnlyIndex(v: Json) {
    v.JString?
    && (v.s in ["current", "closed", ""]
        || (v.s != "" && v.s[0] == '+' && Unsigned(v.s[1..], MAX_UINT32).Some?))
  }

  lemma NumbersStartWithDigits(s: string)
    ensures Unsigned(s, MAX_UINT32).Some? ==> s != "" && IsDigit(s[0])
  {
    DigitsAreDigits(s);
  }

  lemma IndexAgreement(v: Json)
    ensures ClioFromIndex(v).Selected? ==> StringOrInteger(v) && XrpldFromIndex(v) == ClioFromIndex(v)
    ensures StringOrInteger(v) && XrpldFromIndex(v).Selected? && ClioFromIndex(v).Refused? <==> XrpldOnlyIndex(v)
    ensures ClioFromIndex(v) != Selected(Unspecified) && XrpldFromIndex(v) != Selected(Unspecified)
  {
    if v.JString? {
      NumbersStartWithDigits(v.s);
    }
  }

  lemma HashAgreement(lib: Libxrpl, v: Json)
    ensures ClioFromHash(lib, v).Selected? <==> v.JString? && XrpldFromHash(lib, v.s).Selected?
    ensures ClioFromHash(lib, v).Selected? ==>
      && XrpldFromHash(lib, v.s) == ClioFromHash(lib, v)
      && ClioFromHash(lib, v) != Selected(Unspecified)
  {
  }

  /** Whatever Clio accepts, xrpld accepts with the same selection exactly when the request has no
    legacy `ledger` and not both of the other two keys. */
  lemma ServersAgree(lib: Libxrpl, root: Json)
    requires ClioSelect(lib, root).Selected?
    ensures XrpldSelect(lib, root) == ClioSelect(lib, root)
      <==> Child(root, "ledger").None?
           && !(Child(root, "ledger_hash").Some? && Child(root, "ledger_index").Some?)
  {
    hide *;
    var legacy, hash, index := Child(root, "ledger"), Child(root, "ledger_hash"), Child(root, "ledger_index");
    if legacy.Some? {
      LegacyDisagrees(lib, root);
    } else if hash.Some? && index.Some? {
      BothDisagree(lib, root);
    } else {
      OneKeyAgrees(lib, root);
    }
  }

  lemma LegacyDisagrees(lib: Libxrpl, root: Json)
    requires Child(root, "ledger").Some? && ClioSelect(lib, root).Selected?
    ensures XrpldSelect(lib, root) != ClioSelect(lib, root)
  {
    hide Child, ClioFromIndex, XrpldFromIndex, ClioFromHash, CStr;
    IndexAgreement(Child(root, "ledger").value);
  }

  lemma BothDisagree(lib: Libxrpl, root: Json)
    requires Child(root, "ledger").None? && ClioSelect(lib, root).Selected?
    requires Child(root, "ledger_hash").Some? && Child(root, "ledger_index").Some?
    ensures XrpldSelect(lib, root) != ClioSelect(lib, root)
  {
    hide Child, ClioSelect;
  }

  lemma OneKeyAgrees(lib: Libxrpl, root: Json)
    requires Child(root, "ledger").None? && ClioSelect(lib, root).Selected?
    requires !(Child(root, "ledger_hash").Some? && Child(root, "ledger_index").Some?)
    ensures XrpldSelect(lib, root) == ClioSelect(lib, root)
  {
    hide Child, ClioFromIndex, XrpldFromIndex, ClioFromHash, XrpldFromHash, StringOrInteger;
    var hash, index := Child(root, "ledger_hash"), Child(root, "ledger_index");
    if hash.Some? {
      HashAgreement(lib, hash.value);
    } else if index.Some? {
      IndexAgreement(index.value);
    }
  }

  /** A request that names no ledger is answered as one that asks Clio for the validated ledger, and
    xrpld for the current one. */
  lemma DefaultLedgers(lib: Libxrpl, root: Json)
    requires Child(root, "ledger").None? && Child(root, "ledger_hash").None? && Child(root, "ledger_index").None?
    ensures ClioSelect(lib, root).Selected? && XrpldSelect(lib, root).Selected?
    ensures Selected(Resolved(true, ClioSelect(lib, root).specifier)) == ClioFromIndex(JString("validated"))
    ensures Selected(Resolved(false, XrpldSelect(lib, root).specifier)) == XrpldFromIndex(JString("current"))
  {
    hide Child, Unsigned, LexicalValue;
  }

  /** The legacy key selects what `ledger_hash` would of a text of 64 characters, and what `ledger_index`
    would of anything else. */
  lemma LegacyLaw(lib: Libxrpl, v: Json)
    ensures var legacy := XrpldFromViews(lib, Some(v), None, None);
      var named := if v.JString? && |v.s| == 64 then XrpldFromViews(lib, None, Some(v), None)
                   else XrpldFromViews(lib, None, None, Some(v));
      legacy == named || (legacy.Refused? && named.Refused?)
  {
    hide XrpldFromIndex, XrpldFromHash, Malformed;
  }

  /** Both servers answer, and from the same ledger. */
  ghost predicate SameLedger(lib: Libxrpl, root: Json) {
    var clio, xrpld := ClioSelect(lib, root), XrpldSelect(lib, root);
    clio.Selected? && xrpld.Selected? && Resolved(true, clio.specifier) == Resolved(false, xrpld.specifier)
  }

  /** A request that Clio accepts is answered from the same ledger by both servers exactly when it has
    one of `ledger_hash` and `ledger_index` and no legacy key, or the legacy key alone asking for the
    validated ledger. A request that names no ledger at all is answered from different ones. */
  lemma SameLedgerIff(lib: Libxrpl, root: Json)
    ensures var legacy, hash, index := Child(root, "ledger"), Child(root, "ledger_hash"), Child(root, "ledger_index");
      SameLedger(lib, root)
      <==> (&& ClioSelect(lib, root).Selected?
            && if legacy.Some? then legacy.value == JString("validated") && hash.None? && index.None?
               else hash.Some? != index.Some?)
  {
    var legacy, hash, index := Child(root, "ledger"), Child(root, "ledger_hash"), Child(root, "ledger_index");
    if ClioSelect(lib, root).Selected? {
      if legacy.Some? {
        LegacyLedger(lib, legacy.value, hash, index);
      } else if hash.Some? || index.Some? {
        NamedLedger(lib, hash, index);
        hide ClioFromIndex, XrpldFromIndex, ClioFromHash, XrpldFromHash, CStr;
        ServersAgree(lib, root);
      }
    }
  }

  /** Clio never reads the legacy key, so it answers from its default. */
  lemma LegacyLedger(lib: Libxrpl, legacy: Json, hash: View, index: View)
    ensures var xrpld := XrpldFromViews(lib, Some(legacy), hash, index);
      xrpld == Selected(Named(Validated))
      <==> legacy == JString("validated") && hash.None? && index.None?
    ensures !(XrpldFromViews(lib, Some(legacy), hash, index) == Selected(Unspecified))
    ensures hash.Some? || index.Some? ==> XrpldFromViews(lib, Some(legacy), hash, index).Refused?
  {
    hide CStr, XrpldFromIndex, XrpldFromHash, Malformed;
    IndexValidated(legacy);
    if legacy.JString? {
      HashNames(lib, legacy.s);
    }
  }

  lemma IndexValidated(v: Json)
    ensures XrpldFromIndex(v) == Selected(Named(Validated)) <==> v == JString("validated")
    ensures XrpldFromIndex(v) != Selected(Unspecified)
  {
  }

  lemma HashNames(lib: Libxrpl, s: string)
    ensures XrpldFromHash(lib, s).Selected? ==> XrpldFromHash(lib, s).specifier.Hash?
  {
  }

  /** A key that Clio accepts names a ledger. */
  lemma NamedLedger(lib: Libxrpl, hash: View, index: View)
    requires hash.Some? || index.Some?
    ensures ClioFromViews(lib, hash, index) != Selected(Unspecified)
    ensures hash.Some? && index.Some? ==> XrpldFromViews(lib, None, hash, index).Refused?
  {
    hide CStr, Unsigned, Malformed;
  }

  /** On a request with one key, what xrpld accepts and Clio refuses is a string index naming the
    current or closed ledger, an empty one, or a number with a plus sign. */
  lemma XrpldAcceptsMore(lib: Libxrpl, root: Json)
    requires Child(root, "ledger").None?
    requires !(Child(root, "ledger_hash").Some? && Child(root, "ledger_index").Some?)
    ensures XrpldSelect(lib, root).Selected? && ClioSelect(lib, root).Refused?
      <==> Child(root, "ledger_index").Some? && XrpldOnlyIndex(Child(root, "ledger_index").value)
  {
    hide Child, ClioFromIndex, XrpldFromIndex, XrpldOnlyIndex, ClioFromHash, XrpldFromHash, StringOrInteger;
    var hash, index := Child(root, "ledger_hash"), Child(root, "ledger_index");
    if hash.Some? {
      HashAgreement(lib, hash.value);
    }
    if index.Some? {
      IndexAgreement(index.value);
    }
  }

  function ShortcutName(shortcut: Shortcut): string {
    match shortcut
    case Validated => "validated"
    case Current => "current"
    case Closed => "closed"
  }

  lemma SequenceRoundTrip(n: nat)
    requires n <= MAX_UINT32
    ensures XrpldFromIndex(JString(Decimal(n))) == Selected(Sequence(n)) == ClioFromIndex(JString(Decimal(n)))
    ensures XrpldFromIndex(JUint(n)) == Selected(Sequence(n)) == ClioFromIndex(JUint(n))
  {
    var s := Decimal(n);
    DecimalReadsBack(n);
    UnsignedHasNoPlus(s, MAX_UINT32);
    hide Digits, Decimal;
    assert IsDigit(s[0]);
  }

  lemma ShortcutRoundTrip(shortcut: Shortcut)
    ensures XrpldFromIndex(JString(ShortcutName(shortcut))) == Selected(Named(shortcut))
    ensures ClioFromIndex(JString(ShortcutName(shortcut)))
         == if shortcut.Validated? then Selected(Named(Validated)) else Malformed("ledgerIndexMalformed")
  {
    var name := ShortcutName(shortcut);
    NumbersStartWithDigits(name);
    assert !IsDigit(name[0]);
  }

  /** Every sequence and every shortcut printed as `ledger_index` parses back on xrpld; Clio reads
    the sequences and the validated shortcut. */
  lemma IndexRoundTrip(n: nat, shortcut: Shortcut)
    requires n <= MAX_UINT32
    ensures XrpldFromIndex(JString(Decimal(n))) == Selected(Sequence(n)) == ClioFromIndex(JString(Decimal(n)))
    ensures XrpldFromIndex(JUint(n)) == Selected(Sequence(n)) == ClioFromIndex(JUint(n))
    ensures XrpldFromIndex(JString(ShortcutName(shortcut))) == Selected(Named(shortcut))
    ensures ClioFromIndex(JString(ShortcutName(shortcut))).Selected? <==> shortcut.Validated?
    ensures ClioFromIndex(JString(ShortcutName(Validated))) == Selected(Named(Validated))
  {
    hide XrpldFromIndex, ClioFromIndex, ShortcutName, Decimal;
    SequenceRoundTrip(n);
    ShortcutRoundTrip(shortcut);
    ShortcutRoundTrip(Validated);
  }

  // ------------------------------------------------------------------ account markers

  const MAX_UINT64: nat := 0xFFFF_FFFF_FFFF_FFFF

  /** The position of the first comma, or the length. */
  function Comma(s: string): (i: nat)
    ensures i <= |s| && (i < |s| ==> s[i] == ',')
    ensures forall j :: 0 <= j < i ==> s[j] != ','
  {
    if s == [] || s[0] == ',' then 0 else 1 + Comma(s[1..])
  }

  /** The validator: an absent field passes, a present one must be hex, a comma and a uint64. */
  function VerifyMarker(lib: Libxrpl, v: View): Result {
    if v.None? then Ok
    else if !v.value.JString? then Fail(INVALID_PARAMS)
    else
      var s := v.value.s;
      var comma := Comma(s);
      if comma == |s| then Fail(INVALID_PARAMS)
      else
        var hexPart, hintPart := s[..comma], s[comma + 1..];
        if lib.parseHex256(CStr(hexPart)).None? then Fail(INVALID_PARAMS)
        else if Unsigned(hintPart, MAX_UINT64).None? then Fail(INVALID_PARAMS)
        else Ok
  }

  /** The converter: the marker's own text, or a rejection. On xrpld the hint ends at the next comma
    and may start with a plus sign. */
  function ConvertMarker(lib: Libxrpl, xrpld: bool, v: Json): Option<string> {
    if !v.JString? then None
    else
      var comma := Comma(v.s);
      if comma == |v.s| || lib.parseHex256(CStr(v.s[..comma])).None? then None
      else
        var hintPart := v.s[comma + 1..];
        var hint :- Unsigned(if xrpld then DropPlus(hintPart[..Comma(hintPart)]) else hintPart, MAX_UINT64);
        Some(v.s)
  }

  datatype Marker = Marker(index: Uint256, hint: nat)

  /** The page a marker names, as each server's handlers read it back. */
  function ReadMarker(lib: Libxrpl, xrpld: bool, s: string): Option<Marker> {
    var comma := Comma(s);
    if comma == |s| then None
    else
      var index :- lib.parseHex256(CStr(s[..comma]));
      var hintPart := s[comma + 1..];
      var hint :- Unsigned(if xrpld then DropPlus(hintPart[..Comma(hintPart)]) else hintPart, MAX_UINT64);
      Some(Marker(index, hint))
  }

  /** A hint with neither a second comma nor a plus sign. */
  predicate PlainHint(s: string) {
    var hintPart := if Comma(s) < |s| then s[Comma(s) + 1..] else "";
    Comma(hintPart) == |hintPart| && DropPlus(hintPart) == hintPart
  }

  /** A uint64 is a plain hint. */
  lemma NumberIsPlain(s: string)
    ensures Unsigned(s, MAX_UINT64).Some? ==> Comma(s) == |s| && DropPlus(s) == s
  {
    DigitsAreDigits(s);
    if Digits(s).Some? {
      assert forall i :: 0 <= i < |s| ==> s[i] != ',';
      assert s[0] != '+';
    }
  }

  /** The validator and Clio's converter, written apart, accept the same values, and the converter
    passes the text on; both mean that the text reads as a page. xrpld's converter accepts all of
    these, reads them to the same page, and differs only on hints that are not plain. */
  lemma MarkersAgree(lib: Libxrpl, v: Json)
    ensures VerifyMarker(lib, Some(v)).Ok? <==> ConvertMarker(lib, false, v).Some?
    ensures VerifyMarker(lib, Some(v)).Ok? <==> v.JString? && ReadMarker(lib, false, v.s).Some?
    ensures ConvertMarker(lib, true, v).Some? <==> v.JString? && ReadMarker(lib, true, v.s).Some?
    ensures VerifyMarker(lib, Some(v)).Ok? ==>
      && PlainHint(v.s)
      && ConvertMarker(lib, false, v) == ConvertMarker(lib, true, v) == Some(v.s)
    ensures v.JString? && PlainHint(v.s) ==> ReadMarker(lib, true, v.s) == ReadMarker(lib, false, v.s)
  {
    hide CStr, Unsigned, DropPlus, Comma;
    if v.JString? && Comma(v.s) < |v.s| {
      var hintPart := v.s[Comma(v.s) + 1..];
      NumberIsPlain(hintPart);
      assert hintPart[..|hintPart|] == hintPart;
    }
  }

  function PrintMarker(hex: string, hint: nat): string {
    hex + "," + Decimal(hint)
  }

  lemma PrintedParts(hex: string, hint: nat)
    requires ',' !in hex
    ensures var s := PrintMarker(hex, hint);
      Comma(s) == |hex| < |s| && s[..|hex|] == hex && s[|hex| + 1..] == Decimal(hint)
  {
    var s := PrintMarker(hex, hint);
    hide Decimal;
    assert s == hex + ("," + Decimal(hint));
    assert s[|hex|] == ',' && forall j :: 0 <= j < |hex| ==> s[j] == hex[j];
  }

  /** Every (hash, uint64) pair prints to a marker that the validator and both converters accept and
    both servers read back, whatever hex spelling of the hash is used. */
  lemma MarkerRoundTrip(lib: Libxrpl, index: Uint256, hex: string, hint: nat)
    requires lib.parseHex256(hex) == Some(index) && NUL !in hex && ',' !in hex
    requires hint <= MAX_UINT64
    ensures var s := PrintMarker(hex, hint);
      && VerifyMarker(lib, Some(JString(s))).Ok?
      && ConvertMarker(lib, false, JString(s)) == ConvertMarker(lib, true, JString(s)) == Some(s)
      && ReadMarker(lib, false, s) == ReadMarker(lib, true, s) == Some(Marker(index, hint))
  {
    var s := PrintMarker(hex, hint);
    PrintedParts(hex, hint);
    CStrWhole(hex);
    DecimalReadsBack(hint);
    hide CStr, Digits, Comma, Decimal, VerifyMarker, ConvertMarker, DropPlus, PlainHint, PrintMarker;
    MarkersAgree(lib, JString(s));
  }
}
