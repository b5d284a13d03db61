/** Base-128 varints and little-endian words: the protobuf wire format's building blocks. */
module Varint {
  import opened AdmissionTypes

  function Pow2(n: nat): (p: nat)
    ensures p >= 1
  {
    if n == 0 then 1 else 2 * Pow2(n - 1)
  }

  function EncodeVarint(v: nat): (s: seq<byte>)
    ensures |s| >= 1
  {
    if v < 128 then [v] else [v % 128 + 128] + EncodeVarint(v / 128)
  }

  datatype Reading = Truncated | Reading(value: nat, length: nat)

  /** Reads the varint a byte sequence starts with, at its full, unbounded value. */
  function DecodeVarint(s: seq<byte>): (r: Reading)
    ensures r.Reading? ==> 1 <= r.length <= |s|
  {
    if s == [] then Truncated
    else if s[0] < 128 then Reading(s[0], 1)
    else match DecodeVarint(s[1..])
      case Truncated => Truncated
      case Reading(v, n) => Reading(s[0] - 128 + 128 * v, n + 1)
  }

  /** Decoding inverts encoding, whatever follows. */
  lemma {:induction false} VarintRoundTrip(v: nat, rest: seq<byte>)
    ensures DecodeVarint(EncodeVarint(v) + rest) == Reading(v, |EncodeVarint(v)|)
  {
    if v >= 128 {
      VarintRoundTrip(v / 128, rest);
      assert (EncodeVarint(v) + rest)[1..] == EncodeVarint(v / 128) + rest;
    }
  }

  /** Every strict prefix of a varint is truncated. */
  lemma {:induction false} VarintPrefix(v: nat, k: nat)
    requires k < |EncodeVarint(v)|
    ensures DecodeVarint(EncodeVarint(v)[..k]) == Truncated
  {
    if k > 0 {
      VarintPrefix(v / 128, k - 1);
      assert EncodeVarint(v)[..k][1..] == EncodeVarint(v / 128)[..k - 1];
    }
  }

  /** A 64-bit value takes at most ten bytes, so reading it never shifts past the word. */
  lemma VarintLength(v: nat)
    requires v < TWO_TO_64
    ensures |EncodeVarint(v)| <= 10
  {
    Pow2Words();
    LengthWithin(v, 10);
  }

  lemma {:induction false} LengthWithin(v: nat, n: nat)
    requires n >= 1 && v < Pow2(7 * n)
    ensures |EncodeVarint(v)| <= n
  {
    if v >= 128 {
      assert Pow2(7) == 128;
      if n == 1 {
        assert false;
      } else {
        Pow2Add(7, 7 * (n - 1));
        LengthWithin(v / 128, n - 1);
      }
    }
  }

  lemma {:induction false} Pow2Add(m: nat, n: nat)
    ensures Pow2(m + n) == Pow2(m) * Pow2(n)
  {
    if m > 0 {
      Pow2Add(m - 1, n);
    }
  }

  lemma Pow2Words()
    ensures Pow2(31) == 0x8000_0000 && Pow2(32) == 0x1_0000_0000
    ensures Pow2(63) == 0x8000_0000_0000_0000 && Pow2(64) == TWO_TO_64 && Pow2(70) == 64 * TWO_TO_64
  {
    assert Pow2(15) == 32768 && Pow2(16) == 65536;
    Pow2Add(16, 15);
    Pow2Add(16, 16);
    Pow2Add(32, 31);
    Pow2Add(32, 32);
    assert Pow2(6) == 64;
    Pow2Add(6, 64);
  }

  /** A 64-bit word with seven more bits set at `shift`. The bits are above those already there,
    so the source's bitwise or is an addition; a shift past the word adds nothing. */
  function WithBits(word: nat, low: nat, shift: nat): (w: nat)
    ensures w < TWO_TO_64
  {
    (word + low * Pow2(shift)) % TWO_TO_64
  }

  /** The 64-bit word once everything still to come, `higher`, is added at `shift`. */
  function Completed(word: nat, shift: nat, higher: nat): nat {
    (word + Pow2(shift) * higher) % TWO_TO_64
  }

  lemma CompletedStart(value: nat)
    ensures Completed(0, 0, value) == value % TWO_TO_64
  {
  }

  lemma CompletedLast(word: nat, low: nat, shift: nat)
    ensures Completed(word, shift, low) == WithBits(word, low, shift)
  {
  }

  /** One step of the reading loop: adding the next seven bits above `shift`, in a 64-bit word,
    accounts for them. */
  lemma NextSevenBits(result: nat, shift: nat, low: nat, higher: nat)
    ensures Completed(WithBits(result, low, shift), shift + 7, higher)
         == Completed(result, shift, low + 128 * higher)
  {
    Pow2Add(7, shift);
    assert Pow2(7) == 128;
    var p := Pow2(shift);
    assert p * (low + 128 * higher) == low * p + (128 * p) * higher;
    WordSum(result + low * p, (128 * p) * higher);
  }

  lemma WordSum(a: nat, b: nat)
    ensures (a % TWO_TO_64 + b) % TWO_TO_64 == (a + b) % TWO_TO_64
  {
  }

  /** Reads a varint at `pos` into a 64-bit word. */
  method ReadVarint(bytes: seq<byte>, pos: nat) returns (ok: bool, next: nat, out: nat)
    requires pos <= |bytes|
    ensures pos <= next <= |bytes| && out < TWO_TO_64
    ensures match DecodeVarint(bytes[pos..])
      case Truncated => !ok
      case Reading(v, n) => ok && next == pos + n && out == v % TWO_TO_64
  {
    var result, shift := 0, 0;
    ghost var whole := DecodeVarint(bytes[pos..]);
    next, out := pos, 0;
    if whole.Reading? {
      CompletedStart(whole.value);
    }
    hide WithBits, Completed, Pow2;
    while next < |bytes|
      invariant pos <= next <= |bytes|
      invariant match (whole, DecodeVarint(bytes[next..]))
        case (Truncated, Truncated) => true
        case (Reading(v, n), Reading(here, left)) =>
          n == next - pos + left && Completed(result, shift, here) == v % TWO_TO_64
        case _ => false
      decreases |bytes| - next
    {
      ghost var here, before := bytes[next..], result;
      var byte := bytes[next];
      next := next + 1;
      assert here[0] == byte && here[1..] == bytes[next..];
      result := WithBits(result, byte % 128, shift);
      if byte < 128 {
        CompletedLast(before, byte, shift);
        return true, next, result;
      }
      if whole.Reading? {
        NextSevenBits(before, shift, byte - 128, DecodeVarint(bytes[next..]).value);
      }
      shift := shift + 7;
    }
    ok := false;
  }

  // ------------------------------------------------------------------ fixed-width words

  function LittleEndian(v: nat, width: nat): (s: seq<byte>)
    ensures |s| == width
  {
    if width == 0 then [] else [v % 256] + LittleEndian(v / 256, width - 1)
  }

  function FromLittleEndian(s: seq<byte>): nat {
    if s == [] then 0 else s[0] + 256 * FromLittleEndian(s[1..])
  }

  lemma {:induction false} LittleEndianRoundTrip(v: nat, width: nat)
    requires v < Pow2(8 * width)
    ensures FromLittleEndian(LittleEndian(v, width)) == v
  {
    LowByte(v, width);
    hide Pow2;
    if width > 0 {
      LittleEndianRoundTrip(v / 256, width - 1);
      assert LittleEndian(v, width)[1..] == LittleEndian(v / 256, width - 1);
    }
  }

  /** Bytes further on weigh more: appending puts the second word above the first. */
  lemma {:induction false} LittleEndianConcat(a: seq<byte>, b: seq<byte>)
    ensures FromLittleEndian(a + b) == FromLittleEndian(a) + Pow2(8 * |a|) * FromLittleEndian(b)
    ensures |b| == 1 ==> FromLittleEndian(b) == b[0]
  {
    if a == [] {
      assert a + b == b;
    } else {
      assert (a + b)[1..] == a[1..] + b;
      LittleEndianConcat(a[1..], b);
      Pow2Add(8, 8 * (|a| - 1));
      assert Pow2(8) == 256;
      Weighted(a[0], FromLittleEndian(a[1..]), Pow2(8 * (|a| - 1)), FromLittleEndian(b));
    }
  }

  lemma Weighted(first: nat, rest: nat, p: nat, above: nat)
    ensures first + 256 * (rest + p * above) == first + 256 * rest + 256 * p * above
  {
  }

  lemma LowByte(v: nat, width: nat)
    requires v < Pow2(8 * width)
    ensures if width == 0 then v == 0 else v / 256 < Pow2(8 * (width - 1))
  {
    if width > 0 {
      Pow2Add(8, 8 * (width - 1));
      assert Pow2(8) == 256;
    }
  }

  /** Reinterprets an unsigned word of `bits` bits as a signed one. */
  function Signed(v: nat, bits: nat): int
    requires bits >= 1
  {
    if v < Pow2(bits - 1) then v else v - Pow2(bits)
  }

  predicate FitsSigned(x: int, bits: nat)
    requires bits >= 1
  {
    0 <= x + Pow2(bits - 1) < Pow2(bits)
  }

  /** Two's complement: the signed reading lies in the signed range and differs from the word by a
    multiple of the word size. */
  lemma TwosComplement(v: nat, bits: nat)
    requires bits >= 1 && v < Pow2(bits)
    ensures FitsSigned(Signed(v, bits), bits)
    ensures (v - Signed(v, bits)) % Pow2(bits) == 0
  {
    var size, x := Pow2(bits), Signed(v, bits);
    assert v - x == 0 || v - x == size;
    hide Pow2, Signed;
    OwnMultiples(size);
  }

  lemma OwnMultiples(size: nat)
    requires size > 0
    ensures 0 % size == 0 && size % size == 0
  {
  }

  /** How a signed number is held in a word of `bits` bits. */
  function Word(x: int, bits: nat): (v: nat)
    requires bits >= 1 && FitsSigned(x, bits)
    ensures v < Pow2(bits)
  {
    if x < 0 then x + Pow2(bits) else x
  }

  /** Every signed number is read back from its word. */
  lemma SignedReadsBack(x: int, bits: nat)
    requires bits >= 1 && FitsSigned(x, bits)
    ensures Signed(Word(x, bits), bits) == x
  {
  }
}
