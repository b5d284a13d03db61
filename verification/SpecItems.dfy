/** The items a field can carry and how they run over a field's value: requirements, modifiers
  and the wrappers that nest them. */
module SpecItems {
  import opened JsonDocument
  import opened Wrappers

  datatype Status = Status(code: int, message: string)

  const INVALID_PARAMS := Status(0, "")

  datatype Result = Ok | Fail(status: Status)

  datatype Warning = Warning(field: string, message: string)

  /** A value a converter or a default can produce. */
  type Value(!new)

  /** The built-in modifiers. */
  datatype Modifier =
    | ClampInt64(low: int, high: int)
    | ClampUint32(from: nat, to: nat)
    | ClampDouble(least: real, most: real)
    | ClampAs(min: int, max: int, unsigned: bool)
    | NullAs(value: ScalarJson)
    | ToNumber
    | LexicalUint32
    | ToLower
    | OracleIds(isAccount: string -> bool)

  datatype Item =
    | Requirement(verify: (string, View) -> Result)
    | Modify(modifier: Modifier)
    | Section(subFields: seq<SubField>)
    | IfType(tag: Tag, subItems: seq<Item>)
    | WithCustomError(wrapped: Item, status: Status)
    | ServerConditional(active: bool, inners: seq<Item>)
    | Check(check: (string, View) -> Option<Warning>)
    | IfAbsent(guardKey: string)
    | Never
    | Default(value: Value)

  datatype SubField = SubField(key: string, items: seq<Item>)

  // ------------------------------------------------------------------ numbers in strings

  predicate IsDigit(c: char) { '0' <= c <= '9' }

  /** The value of a non-empty all-digit string. */
  function Digits(s: string): Option<nat> {
    if s == [] then None
    else
      var last := s[|s| - 1];
      if !IsDigit(last) then None
      else if |s| == 1 then Some(last as int - '0' as int)
      else match Digits(s[..|s| - 1])
        case None => None
        case Some(n) => Some(10 * n + (last as int - '0' as int))
  }

  /** A whole string read as a decimal number that fits a uint32, with an optional minus sign (of
    which only minus zero fits). */
  function ToNumberValue(s: string): Option<nat> {
    var n := if s != [] && s[0] == '-' then Digits(s[1..]) else Digits(s);
    if n.None? || n.value > MAX_UINT32 || (s[0] == '-' && n.value != 0) then None else n
  }

  /** A whole string that is a decimal number of at most `max`. */
  function Unsigned(s: string, max: nat): Option<nat> {
    var n :- Digits(s);
    if n <= max then Some(n) else None
  }

  function DropPlus(s: string): string {
    if s != [] && s[0] == '+' then s[1..] else s
  }

  /** A uint32 with an optional plus sign and no minus sign. */
  function LexicalValue(s: string): Option<nat> {
    Unsigned(DropPlus(s), MAX_UINT32)
  }

  function LowerChar(c: char): char {
    if 'A' <= c <= 'Z' then c - 'A' + 'a' else c
  }

  function Lower(s: string): string {
    seq(|s|, i requires 0 <= i < |s| => LowerChar(s[i]))
  }

  function ClampTo(x: int, lo: int, hi: int): int {
    if x < lo then lo else if hi < x then hi else x
  }

  // ------------------------------------------------------------------ built-in modifiers

  function StringToNumber(v: Json): (Result, Json) {
    if !v.JString? then (Ok, v)
    else match ToNumberValue(v.s)
      case None => (Fail(INVALID_PARAMS), v)
      case Some(n) => (Ok, JInt(n))
  }

  /** What a modifier does to a present value: its result, and what the field then holds. */
  function Rewrite(m: Modifier, v: Json): (Result, Json) {
    match m
    case ClampInt64(lo, hi) => (Ok, if IsInt64(v) then JInt(ClampTo(AsInt64(v), lo, hi)) else v)
    case ClampUint32(lo, hi) =>
      (Ok, if !IsUint32(v) then v
           else if AsUint32(v) < lo then JUint(lo)
           else if hi < AsUint32(v) then JUint(hi) else JUint(AsUint32(v)))
    case ClampDouble(lo, hi) =>
      (Ok, if !v.JDouble? then v else if v.d < lo then JDouble(lo) else if hi < v.d then JDouble(hi) else v)
    case ClampAs(lo, hi, unsigned) =>
      if !IsInt64(v) then (Ok, v)
      else
        var x := ClampTo(AsInt64(v), lo, hi);
        (Ok, if unsigned then JUint(if x < 0 then 0 else x) else JInt(x))
    case NullAs(value) => (Ok, if v.JNull? then value else v)
    case ToNumber => StringToNumber(v)
    case LexicalUint32 =>
      if !v.JString? then (Ok, v)
      else (match LexicalValue(v.s)
        case None => (Fail(INVALID_PARAMS), v)
        case Some(n) => (Ok, JUint(n)))
    case ToLower => (Ok, if v.JString? then JString(Lower(v.s)) else v)
    case OracleIds(isAccount) =>
      if !v.JArray? || |v.elements| == 0 || |v.elements| > 200 then (Fail(Status(1, "")), v)
      else
        var (r, es) := RewriteOracles(isAccount, v.elements);
        (r, JArray(es))
  }

  /** One oracle: both keys, an id that is or becomes a number, and a valid account. */
  function RewriteOracle(isAccount: string -> bool, v: Json): (Result, Json) {
    var id, account := Child(v, "oracle_document_id"), Child(v, "account");
    if !v.JObject? || id.None? || account.None? then (Fail(Status(1, "")), v)
    else if !IsUint32(id.value) && !id.value.JString? then (Fail(INVALID_PARAMS), v)
    else
      var (r, id') := StringToNumber(id.value);
      var v' := SetChild(v, "oracle_document_id", Some(id'));
      if r.Fail? then (r, v')
      else if !account.value.JString? || !isAccount(account.value.s) then (Fail(INVALID_PARAMS), v')
      else (Ok, v')
  }

  /** Elements before the first bad one keep their rewritten ids. */
  function RewriteOracles(isAccount: string -> bool, es: seq<Json>): (Result, seq<Json>) {
    if es == [] then (Ok, [])
    else
      var (r, e) := RewriteOracle(isAccount, es[0]);
      if r.Fail? then (r, [e] + es[1..])
      else
        var (rest, tail) := RewriteOracles(isAccount, es[1..]);
        (rest, [e] + tail)
  }

  // ------------------------------------------------------------------ what an item offers

  predicate IsRequirement(item: Item) {
    match item
    case Requirement(_) => true
    case WithCustomError(w, _) => IsRequirement(w)
    case ServerConditional(_, inners) => exists i :: 0 <= i < |inners| && IsRequirement(inners[i])
    case _ => false
  }

  predicate IsModifier(item: Item) {
    match item
    case Modify(_) => true
    case Section(_) => true
    case IfType(_, _) => true
    case WithCustomError(w, _) => IsModifier(w)
    case ServerConditional(_, inners) => exists i :: 0 <= i < |inners| && IsModifier(inners[i])
    case _ => false
  }

  predicate IsGuard(item: Item) {
    match item
    case IfAbsent(_) => true
    case Never => true
    case ServerConditional(_, inners) => exists i :: 0 <= i < |inners| && IsGuard(inners[i])
    case _ => false
  }

  // ------------------------------------------------------------------ running items

  function Verify(item: Item, key: string, v: View): Result
    decreases item, 1
  {
    match item
    case Requirement(verify) => verify(key, v)
    case WithCustomError(w, status) => if Verify(w, key, v).Fail? then Fail(status) else Ok
    case ServerConditional(active, inners) => if active then VerifyAll(inners, key, v) else Ok
    case _ => Ok
  }

  /** The requirements among the items, up to the first failure. */
  function VerifyAll(items: seq<Item>, key: string, v: View): Result
    decreases items, 0
  {
    if items == [] then Ok
    else if IsRequirement(items[0]) && Verify(items[0], key, v).Fail? then Verify(items[0], key, v)
    else VerifyAll(items[1..], key, v)
  }

  /** The result, and the value the field holds afterwards (also when the result is a failure). */
  function Apply(item: Item, key: string, v: View): (Result, View)
    decreases item, 1
  {
    match item
    case Modify(m) =>
      if v.None? then (Ok, v)
      else
        var (r, v') := Rewrite(m, v.value);
        (r, Some(v'))
    case Section(subs) =>
      if v.None? then (Ok, v)
      else if !v.value.JObject? then (Fail(INVALID_PARAMS), v)
      else
        var (r, v') := RunSubFields(subs, v.value);
        (r, Some(v'))
    case IfType(tag, items) =>
      if v.None? || !Is(tag, v.value) then (Ok, v) else RunProcessors(items, key, v)
    case WithCustomError(w, status) =>
      var (r, v') := Apply(w, key, v);
      (if r.Fail? then Fail(status) else Ok, v')
    case ServerConditional(active, inners) => if active then ApplyAll(inners, key, v) else (Ok, v)
    case _ => (Ok, v)
  }

  /** The modifiers among the items, up to the first failure. */
  function ApplyAll(items: seq<Item>, key: string, v: View): (Result, View)
    decreases items, 0
  {
    if items == [] then (Ok, v)
    else if !IsModifier(items[0]) then ApplyAll(items[1..], key, v)
    else
      var (r, v') := Apply(items[0], key, v);
      if r.Fail? then (r, v') else ApplyAll(items[1..], key, v')
  }

  /** One item as a processor: a requirement if it is one, else a modifier if it is one. */
  function CallIfProcessor(item: Item, key: string, v: View): (Result, View)
    decreases item, 2
  {
    if IsRequirement(item) then (Verify(item, key, v), v)
    else if IsModifier(item) then Apply(item, key, v)
    else (Ok, v)
  }

  /** Processors in declaration order, stopping at the first failure. */
  function RunProcessors(items: seq<Item>, key: string, v: View): (Result, View)
    decreases items, 0
  {
    if items == [] then (Ok, v)
    else
      var (r, v') := CallIfProcessor(items[0], key, v);
      if r.Fail? then (r, v') else RunProcessors(items[1..], key, v')
  }

  /** A section's fields in order, each rewriting its own child in place. */
  function RunSubFields(subs: seq<SubField>, parent: Json): (Result, Json)
    decreases subs, 0
  {
    if subs == [] then (Ok, parent)
    else
      var SubField(key, items) := subs[0];
      var (r, child) := RunProcessors(items, key, Child(parent, key));
      var parent' := SetChild(parent, key, child);
      if r.Fail? then (r, parent') else RunSubFields(subs[1..], parent')
  }

  // ------------------------------------------------------------------ guards

  predicate Skips(item: Item, root: Json) {
    match item
    case IfAbsent(guardKey) => Child(root, guardKey).Some?
    case Never => true
    case ServerConditional(active, inners) =>
      active && exists i :: 0 <= i < |inners| && IsGuard(inners[i]) && Skips(inners[i], root)
    case _ => false
  }

  predicate SkipsField(items: seq<Item>, root: Json) {
    exists i :: 0 <= i < |items| && IsGuard(items[i]) && Skips(items[i], root)
  }
}
