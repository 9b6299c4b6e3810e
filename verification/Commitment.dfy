/** The 48-byte bid preimage and its hexadecimal form
    (`packages/tlock/src/commitment.ts`).  The contract hashes the same bytes. */
module Commitment {
  import opened Common
  import Json

  const VALUE_BYTES := 16
  const NONCE_BYTES := 32
  const PREIMAGE_BYTES := 48

  datatype Failure = RangeError | WrongLength | OddHex

  // ---- Unsigned big-endian numerals, the meaning of the byte loops ----

  function Pow256(n: nat): (p: nat)
    ensures p > 0
  {
    if n == 0 then 1 else 256 * Pow256(n - 1)
  }

  function Digits(u: nat, n: nat): Bytes {
    if n == 0 then [] else Digits(u / 256, n - 1) + [u % 256]
  }

  function Number(bytes: Bytes): nat {
    if bytes == [] then 0 else Number(bytes[..|bytes| - 1]) * 256 + bytes[|bytes| - 1]
  }

  lemma {:induction false} DigitsRoundTrip(u: nat, n: nat)
    requires u < Pow256(n)
    ensures |Digits(u, n)| == n
    ensures Number(Digits(u, n)) == u
  {
    if n == 0 {
    } else {
      DigitsRoundTrip(u / 256, n - 1);
      assert Digits(u, n)[..n - 1] == Digits(u / 256, n - 1);
    }
  }

  lemma {:induction false} NumberRoundTrip(bytes: Bytes)
    ensures Number(bytes) < Pow256(|bytes|)
    ensures Digits(Number(bytes), |bytes|) == bytes
  {
    if bytes == [] {
    } else {
      NumberRoundTrip(bytes[..|bytes| - 1]);
      assert Number(bytes) / 256 == Number(bytes[..|bytes| - 1]);
    }
  }

  lemma SixteenBytes()
    ensures Pow256(16) == TWO_128
  {
    assert Pow256(4) == 0x1_0000_0000;
    assert Pow256(8) == 0x1_0000_0000_0000_0000;
    assert Pow256(12) == 0x1_0000_0000_0000_0000_0000_0000;
  }

  // ---- Signed values ----

  function Wrap(value: int): nat { value % TWO_128 }

  function Unwrap(u: nat): int { if u >= TWO_127 then u - TWO_128 else u }

  function ValueBytes(value: I128): Bytes { Digits(Wrap(value), VALUE_BYTES) }

  function ValueOf(bytes: Bytes): int { Unwrap(Number(bytes)) }

  /** Two's complement, byte by byte: sixteen bytes hold exactly the i128 values. */
  lemma ValueRoundTrip(value: I128)
    ensures |ValueBytes(value)| == VALUE_BYTES
    ensures ValueOf(ValueBytes(value)) == value
  {
    SixteenBytes();
    DigitsRoundTrip(Wrap(value), VALUE_BYTES);
  }

  lemma BytesRoundTrip(bytes: Bytes)
    requires |bytes| == VALUE_BYTES
    ensures I128_MIN <= ValueOf(bytes) <= I128_MAX
    ensures ValueBytes(ValueOf(bytes)) == bytes
  {
    SixteenBytes();
    NumberRoundTrip(bytes);
    assert Wrap(ValueOf(bytes)) == Number(bytes);
  }

  // ---- The preimage ----

  function Encode(value: I128, nonce: Bytes): Bytes { ValueBytes(value) + nonce }

  function Decode(preimage: Bytes): Result<(int, Bytes), Failure> {
    if |preimage| != PREIMAGE_BYTES then Err(WrongLength)
    else Ok((ValueOf(preimage[..VALUE_BYTES]), preimage[VALUE_BYTES..]))
  }

  lemma DecodeEncode(value: I128, nonce: Bytes32)
    ensures Decode(Encode(value, nonce)) == Ok((value, nonce))
  {
    ValueRoundTrip(value);
    var p := Encode(value, nonce);
    assert p[..VALUE_BYTES] == ValueBytes(value) && p[VALUE_BYTES..] == nonce;
  }

  lemma EncodeDecode(preimage: Bytes)
    requires |preimage| == PREIMAGE_BYTES
    ensures Decode(preimage).Ok?
    ensures var (value, nonce) := Decode(preimage).value;
            I128_MIN <= value <= I128_MAX && |nonce| == NONCE_BYTES && Encode(value, nonce) == preimage
  {
    BytesRoundTrip(preimage[..VALUE_BYTES]);
    assert preimage == preimage[..VALUE_BYTES] + preimage[VALUE_BYTES..];
  }

  lemma EncodeInjective(v: I128, n: Bytes32, v': I128, n': Bytes32)
    requires Encode(v, n) == Encode(v', n')
    ensures v == v' && n == n'
  {
    DecodeEncode(v, n);
    DecodeEncode(v', n');
  }

  // ---- Which byte stands where ----

  lemma {:induction false} DigitAt(u: nat, n: nat, k: nat)
    requires k < n
    ensures |Digits(u, n)| == n
    ensures Digits(u, n)[k] == u / Pow256(n - 1 - k) % 256
  {
    if n > 1 { DigitAt(u / 256, n - 1, if k < n - 1 then k else 0); }
    if k < n - 1 { DivTwice(u, Pow256(n - 2 - k)); }
  }

  lemma DivTwice(u: nat, d: nat)
    requires d > 0
    ensures u / 256 / d == u / (256 * d)
  {
    var q := u / (256 * d);
    var r := u - 256 * d * q;
    assert 0 <= r < 256 * d;
    assert u / 256 == d * q + r / 256;
    assert 0 <= r / 256 < d;
    QuotientIs(u / 256, d, q, r / 256);
  }

  lemma QuotientIs(a: nat, d: nat, q: nat, r: nat)
    requires a == d * q + r && r < d
    ensures a / d == q
  {
    var q', r' := a / d, a % d;
    assert a == d * q' + r';
    if q' < q { AtLeastOnce(d, q - q'); }
    if q' > q { AtLeastOnce(d, q' - q); }
  }

  lemma AtLeastOnce(d: nat, x: nat)
    requires x >= 1
    ensures d * x >= d
  {
  }

  /** The preimage is 48 bytes: sixteen of the value in two's complement, the most significant
      first, and the nonce. */
  lemma PreimageBytes(value: I128, nonce: Bytes32, k: nat)
    requires k < 48
    ensures |Encode(value, nonce)| == 48
    ensures var u := if value >= 0 then value else value + TWO_128;
            Encode(value, nonce)[k] == if k < 16 then u / Pow256(15 - k) % 256 else nonce[k - 16]
  {
    hide Digits, Pow256;
    DigitAt(Wrap(value), 16, if k < 16 then k else 0);
  }

  // ---- The byte loops of the source ----

  method I128ToBeBytes(value: int) returns (r: Result<Bytes, Failure>)
    ensures r.Ok? <==> I128_MIN <= value <= I128_MAX
    ensures r.Err? ==> r.error == RangeError
    ensures r.Ok? ==> |r.value| == VALUE_BYTES && ValueOf(r.value) == value
    ensures r.Ok? ==> r.value == ValueBytes(value)
  {
    if value < I128_MIN || value > I128_MAX {
      return Err(RangeError);
    }
    var u: nat := value % TWO_128;
    var out := new Byte[VALUE_BYTES](i => 0);
    var i := VALUE_BYTES;
    ghost var start := u;
    while i > 0
      invariant 0 <= i <= VALUE_BYTES && out.Length == VALUE_BYTES
      invariant Digits(start, VALUE_BYTES) == Digits(u, i) + out[i..]
    {
      i := i - 1;
      ghost var tail := out[i + 1..];
      out[i] := u % 256;
      assert out[i..] == [u % 256] + tail;
      u := u / 256;
    }
    ValueRoundTrip(value);
    assert out[..] == Digits(u, 0) + out[0..];
    r := Ok(out[..]);
  }

  method BeBytesToI128(bytes: Bytes) returns (r: Result<int, Failure>)
    ensures r.Ok? <==> |bytes| == VALUE_BYTES
    ensures r.Err? ==> r.error == WrongLength
    ensures r.Ok? ==> I128_MIN <= r.value <= I128_MAX && ValueBytes(r.value) == bytes
    ensures r.Ok? ==> r.value == ValueOf(bytes)
  {
    if |bytes| != VALUE_BYTES {
      return Err(WrongLength);
    }
    var u: nat := 0;
    for i := 0 to |bytes|
      invariant u == Number(bytes[..i])
    {
      assert bytes[..i + 1][..i] == bytes[..i];
      u := u * 256 + bytes[i];
    }
    assert bytes[..|bytes|] == bytes;
    BytesRoundTrip(bytes);
    r := Ok(if u >= TWO_127 then u - TWO_128 else u);
  }

  /** `Uint8Array.set`: copy `src` into `out` from position `at`. */
  method SetAt(out: array<Byte>, src: Bytes, at: nat)
    requires at + |src| <= out.Length
    modifies out
    ensures out[..] == old(out[..at]) + src + old(out[at + |src|..])
  {
    for i := 0 to |src|
      invariant out[..at] == old(out[..at]) && out[at..at + i] == src[..i]
      invariant out[at + i..] == old(out[at + i..])
    {
      out[at + i] := src[i];
      assert out[at..at + i + 1] == src[..i + 1];
    }
    assert out[..] == out[..at] + out[at..at + |src|] + out[at + |src|..];
  }

  method EncodeBidPreimage(value: int, nonce: Bytes) returns (r: Result<Bytes, Failure>)
    ensures r.Ok? <==> |nonce| == NONCE_BYTES && I128_MIN <= value <= I128_MAX
    ensures r.Err? ==> r.error == if |nonce| != NONCE_BYTES then WrongLength else RangeError
    ensures r.Ok? ==> Decode(r.value) == Ok((value, nonce)) && r.value == Encode(value, nonce)
  {
    if |nonce| != NONCE_BYTES {
      return Err(WrongLength);
    }
    var out := new Byte[PREIMAGE_BYTES](i => 0);
    var head := I128ToBeBytes(value);
    if head.Err? {
      return Err(head.error);
    }
    SetAt(out, head.value, 0);
    assert out[..VALUE_BYTES] == head.value;
    SetAt(out, nonce, VALUE_BYTES);
    DecodeEncode(value, nonce);
    assert out[..] == Encode(value, nonce);
    r := Ok(out[..]);
  }

  // ---- Hexadecimal text ----

  /** The value of a hexadecimal digit in lower case. */
  function HexValue(u: Json.Unit): Option<int> {
    if 0x30 <= u <= 0x39 then Some(u - 0x30)
    else if 0x61 <= u <= 0x66 then Some(u - 0x61 + 10)
    else None
  }

  function ToHex(bytes: Bytes): Json.Units {
    if bytes == [] then []
    else [Json.HexUnit(bytes[0] / 16), Json.HexUnit(bytes[0] % 16)] + ToHex(bytes[1..])
  }

  /** `toLowerCase`, as far as it can matter here: the letters A to Z, and the one unit that
      becomes two, U+0130. */
  function Lower(u: Json.Unit): Json.Units {
    if 0x41 <= u <= 0x5A then [u + 0x20] else if u == 0x130 then [0x69, 0x307] else [u]
  }

  function LowerAll(s: Json.Units): Json.Units { if s == [] then [] else Lower(s[0]) + LowerAll(s[1..]) }

  /** What `parseInt` skips at the start: the white space and line ends of ECMAScript. */
  predicate Blank(u: Json.Unit) {
    || 0x09 <= u <= 0x0D || u == 0x20 || u == 0xA0 || u == 0x1680 || 0x2000 <= u <= 0x200A
    || u == 0x2028 || u == 0x2029 || u == 0x202F || u == 0x205F || u == 0x3000 || u == 0xFEFF
  }

  /** `parseInt(ab, 16)` stored into a byte: leading blank or sign, longest hexadecimal
      prefix, `NaN` stored as 0. */
  function ParsePair(a: Json.Unit, b: Json.Unit): Byte {
    if HexValue(a).Some? then
      if HexValue(b).Some? then 16 * HexValue(a).value + HexValue(b).value else HexValue(a).value
    else if HexValue(b).Some? then
      if Blank(a) || a == 0x2B then HexValue(b).value
      else if a == 0x2D then (256 - HexValue(b).value) % 256
      else 0
    else 0
  }

  /** Without a leading `0x`, in lower case. */
  function Clean(hex: Json.Units): Json.Units {
    LowerAll(if |hex| >= 2 && hex[..2] == [0x30, 0x78] then hex[2..] else hex)
  }

  function Pairs(clean: Json.Units): Bytes
    requires |clean| % 2 == 0
  {
    if clean == [] then [] else [ParsePair(clean[0], clean[1])] + Pairs(clean[2..])
  }

  method FromHex(hex: Json.Units) returns (r: Result<Bytes, Failure>)
    ensures r.Ok? <==> |Clean(hex)| % 2 == 0
    ensures r.Err? ==> r.error == OddHex
    ensures r.Ok? ==> r.value == Pairs(Clean(hex))
  {
    var clean := Clean(hex);
    if |clean| % 2 != 0 {
      return Err(OddHex);
    }
    var bytes := ParsePairs(clean);
    r := Ok(bytes);
  }

  method ParsePairs(clean: Json.Units) returns (bytes: Bytes)
    requires |clean| % 2 == 0
    ensures bytes == Pairs(clean)
  {
    hide Pairs;
    assert clean[2 * 0..] == clean;
    var out := new Byte[|clean| / 2](i => 0);
    for i := 0 to out.Length
      invariant Pairs(clean) == out[..i] + Pairs(clean[2 * i..])
    {
      ghost var done := out[..i];
      PairsAt(clean, i);
      out[i] := ParsePair(clean[2 * i], clean[2 * i + 1]);
      assert out[..i + 1] == done + [out[i]];
    }
    PairsEnd(clean[2 * out.Length..]);
    bytes := out[..];
  }

  lemma PairsEnd(rest: Json.Units)
    requires rest == []
    ensures Pairs(rest) == []
  {
  }

  lemma PairsAt(clean: Json.Units, i: nat)
    requires |clean| % 2 == 0 && 2 * i < |clean|
    ensures Pairs(clean[2 * i..]) == [ParsePair(clean[2 * i], clean[2 * i + 1])] + Pairs(clean[2 * (i + 1)..])
  {
    PairsStep(clean[2 * i..]);
    assert clean[2 * i..][2..] == clean[2 * (i + 1)..];
  }

  lemma PairsStep(rest: Json.Units)
    requires |rest| % 2 == 0 && rest != []
    ensures Pairs(rest) == [ParsePair(rest[0], rest[1])] + Pairs(rest[2..])
  {
  }

  lemma {:induction false} HexShape(bytes: Bytes)
    ensures |ToHex(bytes)| == 2 * |bytes|
    ensures forall i | 0 <= i < |ToHex(bytes)| :: HexValue(ToHex(bytes)[i]).Some?
  {
    if bytes == [] {
    } else {
      HexShape(bytes[1..]);
    }
  }

  lemma PairRoundTrip(b: Byte)
    ensures ParsePair(Json.HexUnit(b / 16), Json.HexUnit(b % 16)) == b
  {
  }

  lemma {:induction false} PairsOfHex(bytes: Bytes)
    ensures |ToHex(bytes)| % 2 == 0
    ensures Pairs(ToHex(bytes)) == bytes
  {
    HexShape(bytes);
    if bytes == [] {
    } else {
      PairsOfHex(bytes[1..]);
      PairRoundTrip(bytes[0]);
      assert ToHex(bytes)[2..] == ToHex(bytes[1..]);
    }
  }

  /** The value of a hexadecimal digit in either case, or -1. */
  function DigitValue(u: Json.Unit): int {
    if '0' as int <= u <= '9' as int then u - '0' as int
    else if 'a' as int <= u <= 'f' as int then u - 'a' as int + 10
    else if 'A' as int <= u <= 'F' as int then u - 'A' as int + 10
    else -1
  }

  lemma HexUnitText(d: nat)
    requires d < 16
    ensures Json.HexUnit(d) == "0123456789abcdef"[d] as int
  {
  }

  /** Every byte becomes two digits, the higher half first. */
  lemma {:induction false} HexTextAt(bytes: Bytes, k: nat)
    requires k < |bytes|
    ensures |ToHex(bytes)| == 2 * |bytes|
    ensures ToHex(bytes)[2 * k] == "0123456789abcdef"[bytes[k] / 16] as int
    ensures ToHex(bytes)[2 * k + 1] == "0123456789abcdef"[bytes[k] % 16] as int
  {
    HexShape(bytes);
    HexUnitText(bytes[k] / 16);
    HexUnitText(bytes[k] % 16);
    hide Json.HexUnit;
    if k > 0 {
      HexTextAt(bytes[1..], k - 1);
      assert ToHex(bytes)[2..] == ToHex(bytes[1..]);
    }
  }

  lemma {:induction false} LowerKeepsDigits(s: Json.Units)
    requires forall i | 0 <= i < |s| :: DigitValue(s[i]) >= 0
    ensures |LowerAll(s)| == |s|
    ensures forall i | 0 <= i < |s| :: HexValue(LowerAll(s)[i]) == Some(DigitValue(s[i]))
  {
    if s != [] {
      LowerKeepsDigits(s[1..]);
      assert LowerAll(s) == Lower(s[0]) + LowerAll(s[1..]) && |Lower(s[0])| == 1;
    }
  }

  lemma {:induction false} PairsOfDigits(clean: Json.Units, k: nat)
    requires |clean| % 2 == 0 && 2 * k < |clean| && forall i | 0 <= i < |clean| :: HexValue(clean[i]).Some?
    ensures |Pairs(clean)| == |clean| / 2
    ensures Pairs(clean)[k] == 16 * HexValue(clean[2 * k]).value + HexValue(clean[2 * k + 1]).value
  {
    if |clean| > 2 { PairsOfDigits(clean[2..], if k > 0 then k - 1 else 0); }
  }

  /** Well-formed text, in either case and with or without `0x`, is read digit by digit. */
  lemma WellFormedHex(digits: Json.Units, prefixed: bool, k: nat)
    requires |digits| % 2 == 0 && 2 * k < |digits| && forall i | 0 <= i < |digits| :: DigitValue(digits[i]) >= 0
    ensures var text := (if prefixed then ['0' as int, 'x' as int] else []) + digits;
            && |Clean(text)| == |digits| && |Pairs(Clean(text))| == |digits| / 2
            && Pairs(Clean(text))[k] == 16 * DigitValue(digits[2 * k]) + DigitValue(digits[2 * k + 1])
  {
    var text := (if prefixed then [0x30, 0x78] else []) + digits;
    LowerKeepsDigits(digits);
    Cleaned(digits, prefixed);
    hide Clean, LowerAll, HexValue, DigitValue, Pairs;
    PairsOfDigits(LowerAll(digits), k);
  }

  lemma Cleaned(digits: Json.Units, prefixed: bool)
    requires forall i | 0 <= i < |digits| :: DigitValue(digits[i]) >= 0
    ensures Clean((if prefixed then [0x30, 0x78] else []) + digits) == LowerAll(digits)
  {
    hide LowerAll;
    var text := (if prefixed then [0x30, 0x78] else []) + digits;
    if prefixed {
      assert text[..2] == [0x30, 0x78] && text[2..] == digits;
    } else {
      assert text == digits && (|digits| >= 2 ==> digits[..2][1] == digits[1]);
    }
  }

  /** Digits in lower case are not changed by lower-casing. */
  lemma {:induction false} LowerDigits(s: Json.Units)
    requires forall i | 0 <= i < |s| :: HexValue(s[i]).Some?
    ensures LowerAll(s) == s
  {
    if s != [] {
      assert HexValue(s[0]).Some?;
      LowerDigits(s[1..]);
      assert s == [s[0]] + s[1..];
    }
  }

  /** `fromHex` undoes `toHex`: the text is lower case and never starts with `0x`. */
  lemma HexRoundTrip(bytes: Bytes)
    ensures LowerAll(ToHex(bytes)) == ToHex(bytes)
    ensures |Clean(ToHex(bytes))| % 2 == 0
    ensures Pairs(Clean(ToHex(bytes))) == bytes
  {
    HexShape(bytes);
    PairsOfHex(bytes);
    var hex := ToHex(bytes);
    LowerDigits(hex);
    if |hex| >= 2 {
      assert HexValue(hex[1]).Some? && hex[1] == hex[..2][1];
    }
  }
}
