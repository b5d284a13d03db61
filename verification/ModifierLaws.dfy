/** What the built-in modifiers mean for the values they rewrite. */
module ModifierLaws {
  import opened JsonDocument
  import opened LedgerSelection
  import opened SpecIdempotence
  import opened SpecItems
  import opened Wrappers
  import Xrpl

  // ------------------------------------------------------------------ numbers

  /** The number a document spells, whatever kind the parser gave it. */
  function Spelled(v: Json): Option<int> {
    match v
    case JInt(i) => Some(i)
    case JUint(u) => Some(u)
    case _ => None
  }

  /** The integer tests and reads depend on the number alone, not on its kind. */
  lemma NumberKinds(v: Json)
    requires v.JInt? ==> -MAX_INT64 - 1 <= v.i <= MAX_INT64
    ensures IsInt64(v) <==> Spelled(v).Some? && -MAX_INT64 - 1 <= Spelled(v).value <= MAX_INT64
    ensures IsUint32(v) <==> Spelled(v).Some? && 0 <= Spelled(v).value <= MAX_UINT32
    ensures IsInt64(v) ==> Some(AsInt64(v)) == Spelled(v)
    ensures IsUint32(v) ==> IsInt64(v) && Some(AsUint32(v)) == Spelled(v)
  {
  }

  // ------------------------------------------------------------------ clamps

  predicate IsClamp(m: Modifier) {
    m.ClampInt64? || m.ClampUint32? || m.ClampDouble? || m.ClampAs?
  }

  /** The number a clamp sees in a value; None when the value is of another type. */
  function Seen(m: Modifier, v: Json): Option<real>
    requires IsClamp(m)
  {
    if m.ClampDouble? then if v.JDouble? then Some(v.d) else None
    else if Spelled(v).None? then None
    else if m.ClampUint32? && !(0 <= Spelled(v).value <= MAX_UINT32) then None
    else if v.JUint? && v.u > MAX_INT64 then None
    else Some(Spelled(v).value as real)
  }

  function Lowest(m: Modifier): real
    requires IsClamp(m)
  {
    match m
    case ClampInt64(lo, _) => lo as real
    case ClampUint32(lo, _) => lo as real
    case ClampDouble(lo, _) => lo
    case ClampAs(lo, _, unsigned) => if unsigned && lo < 0 then 0.0 else lo as real
    case _ => 0.0
  }

  function Highest(m: Modifier): real
    requires IsClamp(m)
  {
    match m
    case ClampInt64(_, hi) => hi as real
    case ClampUint32(_, hi) => hi as real
    case ClampDouble(_, hi) => hi
    case ClampAs(_, hi, _) => hi as real
    case _ => 0.0
  }

  /** `y` is the point of a range nearest to `x`. */
  predicate Nearest(x: real, low: real, high: real, y: real) {
    && low <= y <= high
    && (low <= x <= high ==> y == x)
    && (x < low ==> y == low)
    && (high < x ==> y == high)
  }

  lemma ClampedInt(x: int, low: int, high: int)
    requires low <= high
    ensures Nearest(x as real, low as real, high as real, ClampTo(x, low, high) as real)
  {
  }

  /** A clamp leaves other types alone, brings a number to the nearest point of its range, and
    keeps a number that is in it. */
  lemma ClampLaw(m: Modifier, v: Json)
    requires IsClamp(m) && WellFormed(m)
    ensures Rewrite(m, v).0.Ok?
    ensures var v' := Rewrite(m, v).1;
      if Seen(m, v).None? then v' == v
      else Seen(m, v').Some? && Nearest(Seen(m, v).value, Lowest(m), Highest(m), Seen(m, v').value)
  {
    if m.ClampInt64? || m.ClampAs? {
      Int64Law(m, v);
    } else {
      hide RewriteOracles, StringToNumber, LexicalValue, Lower;
      if m.ClampUint32? && IsUint32(v) {
        ClampedInt(AsUint32(v), m.from, m.to);
      }
    }
  }

  lemma Int64Law(m: Modifier, v: Json)
    requires (m.ClampInt64? || m.ClampAs?) && WellFormed(m)
    ensures Rewrite(m, v).0.Ok?
    ensures var v' := Rewrite(m, v).1;
      if Seen(m, v).None? then v' == v
      else Seen(m, v').Some? && Nearest(Seen(m, v).value, Lowest(m), Highest(m), Seen(m, v').value)
  {
    hide Nearest, RewriteOracles, StringToNumber, LexicalValue, Lower;
    if IsInt64(v) {
      if m.ClampInt64? {
        ClampedInt(AsInt64(v), m.low, m.high);
      } else {
        ClampedInt(AsInt64(v), if m.unsigned && m.min < 0 then 0 else m.min, m.max);
      }
    }
  }

  /** Leading zeros do not count; a single zero stays. */
  function StripZeros(s: string): (r: string)
    ensures |r| <= |s| && (s != "" ==> r != "") && (|r| > 1 ==> r[0] != '0')
  {
    if |s| > 1 && s[0] == '0' then StripZeros(s[1..]) else s
  }

  lemma {:induction false} LeadingZero(s: string)
    requires s != ""
    ensures Digits("0" + s) == Digits(s)
  {
    var t := "0" + s;
    assert t[|t| - 1] == s[|s| - 1];
    if |s| > 1 {
      assert t[..|t| - 1] == "0" + s[..|s| - 1];
      LeadingZero(s[..|s| - 1]);
    } else {
      assert t[..1] == "0";
    }
  }

  lemma {:induction false} StrippedDigits(s: string)
    ensures Digits(StripZeros(s)) == Digits(s)
  {
    if |s| > 1 && s[0] == '0' {
      StrippedDigits(s[1..]);
      LeadingZero(s[1..]);
      assert s == "0" + s[1..];
    }
  }

  /** Digits without leading zeros are how their number prints. */
  lemma {:induction false} CanonicalDigits(s: string)
    requires Digits(s).Some? && (|s| > 1 ==> s[0] != '0')
    ensures s == Decimal(Digits(s).value)
  {
    var n, last := Digits(s).value, s[|s| - 1];
    if |s| > 1 {
      var init := s[..|s| - 1];
      CanonicalDigits(init);
      var m := Digits(init).value;
      assert init[0] == s[0];
      assert m > 0;
      assert n / 10 == m && DigitChar(n % 10) == last;
      assert s == init + [last];
    } else {
      assert s == [last] && DigitChar(n) == last;
    }
  }

  /** Which texts are read as a number: its decimal form behind any number of zeros. */
  lemma DigitsIff(s: string, n: nat)
    ensures Digits(s) == Some(n) <==> StripZeros(s) == Decimal(n)
  {
    StrippedDigits(s);
    DecimalReadsBack(n);
    if Digits(s).Some? {
      CanonicalDigits(StripZeros(s));
    }
  }

  /** A text that spells `n`, leading zeros included. */
  predicate Spells(s: string, n: nat) {
    StripZeros(s) == Decimal(n)
  }

  /** What the two number readings make of every string. Both read exactly the uint32s, leading zeros
    included; the lexical one also behind a plus sign, the other one also a negative zero. */
  lemma NumberLaw(s: string, n: nat)
    ensures LexicalValue(s) == Some(n)
      <==> n <= MAX_UINT32 && (Spells(s, n) || (s != "" && s[0] == '+' && Spells(s[1..], n)))
    ensures ToNumberValue(s) == Some(n)
      <==> n <= MAX_UINT32 && (Spells(s, n) || (n == 0 && s != "" && s[0] == '-' && Spells(s[1..], 0)))
  {
    DigitsIff(s, n);
    DigitsIff(DropPlus(s), n);
    DigitsAreDigits(s);
    if s != "" && s[0] == '-' {
      DigitsIff(s[1..], n);
    }
    hide Digits, Decimal, StripZeros;
  }

  /** The two number modifiers replace a text by the number it spells, fail on any other text leaving it,
    and let every other value be. */
  lemma NumberModifiers(v: Json, n: nat)
    ensures !v.JString? ==> Rewrite(LexicalUint32, v) == Rewrite(ToNumber, v) == (Ok, v)
    ensures v.JString? ==>
      && (Rewrite(LexicalUint32, v) == (Ok, JUint(n))
          <==> n <= MAX_UINT32 && (Spells(v.s, n) || (v.s != "" && v.s[0] == '+' && Spells(v.s[1..], n))))
      && (Rewrite(ToNumber, v) == (Ok, JInt(n))
          <==> n <= MAX_UINT32 && (Spells(v.s, n) || (n == 0 && v.s != "" && v.s[0] == '-' && Spells(v.s[1..], 0))))
      && (Rewrite(LexicalUint32, v).0.Fail? ==> Rewrite(LexicalUint32, v).1 == v)
      && (Rewrite(ToNumber, v).0.Fail? ==> Rewrite(ToNumber, v).1 == v)
      && (Rewrite(LexicalUint32, v).0.Ok? ==> Rewrite(LexicalUint32, v).1.JUint?)
      && (Rewrite(ToNumber, v).0.Ok? ==> Rewrite(ToNumber, v).1.JInt? && Rewrite(ToNumber, v).1.i >= 0)
  {
    if v.JString? {
      NumberLaw(v.s, n);
    }
    hide LexicalValue, ToNumberValue, Spells, RewriteOracles, Lower;
  }

  // ------------------------------------------------------------------ letters

  const UPPER: string := "ABCDEFGHIJKLMNOPQRSTUVWXYZ"
  const LOWER: string := "abcdefghijklmnopqrstuvwxyz"

  lemma Letter(k: nat)
    requires k < 26
    ensures |UPPER| == |LOWER| == 26
    ensures UPPER[k] as int == 'A' as int + k && LOWER[k] as int == 'a' as int + k
  {
  }

  /** Lower-casing replaces each upper-case letter by the same letter in lower case and changes nothing
    else, so it leaves no upper-case letter. */
  lemma LowerLaw(s: string)
    ensures |Lower(s)| == |s| && |UPPER| == |LOWER| == 26
    ensures forall i, k :: 0 <= i < |s| && 0 <= k < 26 && s[i] == UPPER[k] ==> Lower(s)[i] == LOWER[k]
    ensures forall i :: 0 <= i < |s| && s[i] !in UPPER ==> Lower(s)[i] == s[i]
    ensures forall c <- Lower(s) :: c !in UPPER
  {
    Letter(0);
    forall i, k | 0 <= i < |s| && 0 <= k < 26 && s[i] == UPPER[k] ensures Lower(s)[i] == LOWER[k] {
      Letter(k);
    }
    forall c: char ensures c in UPPER <==> 'A' <= c <= 'Z' {
      UpperLetters(c);
    }
    hide UPPER, LOWER;
    forall c | c in Lower(s) ensures c !in UPPER {
      var i :| 0 <= i < |s| && Lower(s)[i] == c;
      assert c == LowerChar(s[i]);
    }
  }

  const FIGURES: string := "0123456789"

  lemma LowerLetters(c: char)
    ensures c in LOWER <==> 'a' <= c <= 'z'
  {
    if 'a' <= c <= 'z' {
      Letter(c as int - 'a' as int);
      assert LOWER[c as int - 'a' as int] == c;
    }
    if c in LOWER {
      var k :| 0 <= k < |LOWER| && LOWER[k] == c;
      Letter(0);
      Letter(k);
    }
  }

  lemma Figure(k: nat)
    requires k < 10
    ensures |FIGURES| == 10 && FIGURES[k] as int == '0' as int + k
  {
  }

  lemma Figures(c: char)
    ensures c in FIGURES <==> '0' <= c <= '9'
  {
    if '0' <= c <= '9' {
      Figure(c as int - '0' as int);
      assert FIGURES[c as int - '0' as int] == c;
    }
    if c in FIGURES {
      var k :| 0 <= k < |FIGURES| && FIGURES[k] == c;
      Figure(0);
      Figure(k);
    }
  }

  /** The texts that a base58 decoder is asked about: figures and letters, none of them accented. */
  lemma AlphanumericLaw(s: string)
    ensures Xrpl.Alphanumeric(s) <==> forall c <- s :: c in FIGURES || c in UPPER || c in LOWER
  {
    hide FIGURES, UPPER, LOWER;
    forall c | c in s
      ensures c in FIGURES <==> '0' <= c <= '9'
      ensures c in UPPER <==> 'A' <= c <= 'Z'
      ensures c in LOWER <==> 'a' <= c <= 'z'
    {
      Figures(c);
      UpperLetters(c);
      LowerLetters(c);
    }
  }

  lemma UpperLetters(c: char)
    ensures c in UPPER <==> 'A' <= c <= 'Z'
  {
    if 'A' <= c <= 'Z' {
      Letter(c as int - 'A' as int);
      assert UPPER[c as int - 'A' as int] == c;
    }
    if c in UPPER {
      var k :| 0 <= k < |UPPER| && UPPER[k] == c;
      Letter(0);
      Letter(k);
    }
  }
}
