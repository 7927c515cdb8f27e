/** Hexadecimal text to bytes, as R2D2Protocol.HexStringToBytes does it, plus the
    upper-case encoder that inverts it. */
module Hex {
  import opened Wrappers
  import Ascii

  /** An unsigned 8-bit value, the element type of a C# `byte[]`. */
  newtype byte = x: int | 0 <= x < 256

  /** Why a conversion fails. `OddLength` is the out-of-range `Substring(i, 2)` on the
      last, single character; `InvalidDigit` is `Convert.ToByte(…, 16)` rejecting a pair. */
  datatype HexError = OddLength | InvalidDigit

  predicate IsHexDigit(c: char)
  {
    '0' <= c <= '9' || 'a' <= c <= 'f' || 'A' <= c <= 'F'
  }

  /** A two-character text `Convert.ToByte(…, 16)` accepts: two hexadecimal digits, or
      a '+' sign followed by one digit, since the parser skips a leading '+'. A '-' sign,
      a "0x" prefix with no digit after it, and anything after the digits are refused. */
  predicate IsPair(hi: char, lo: char)
  {
    (IsHexDigit(hi) || hi == '+') && IsHexDigit(lo)
  }

  /** Text HexStringToBytes accepts: complete pairs, each one `Convert.ToByte` accepts. */
  predicate IsHexString(s: string)
    decreases |s|
  {
    |s| == 0 || (|s| >= 2 && IsPair(s[0], s[1]) && IsHexString(s[2..]))
  }

  /** Hexadecimal text as the encoder writes it: pairs of digits and upper-case letters. */
  predicate IsUpperHexString(s: string)
  {
    |s| % 2 == 0 && forall i :: 0 <= i < |s| ==> IsHexDigit(s[i]) && !Ascii.IsLower(s[i])
  }

  function DigitValue(c: char): (v: nat)
    requires IsHexDigit(c)
    ensures v < 16
  {
    if '0' <= c <= '9' then c as int - '0' as int
    else if 'a' <= c <= 'f' then c as int - 'a' as int + 10
    else c as int - 'A' as int + 10
  }

  /** The upper-case hexadecimal digit of a value below 16. */
  function UpperDigit(v: nat): (c: char)
    requires v < 16
    ensures IsHexDigit(c) && !Ascii.IsLower(c)
  {
    if v < 10 then (v + '0' as int) as char else (v - 10 + 'A' as int) as char
  }

  lemma DigitValueOfUpperDigit(v: nat)
    requires v < 16
    ensures DigitValue(UpperDigit(v)) == v
  {
  }

  lemma UpperDigitOfValue(c: char)
    requires IsHexDigit(c)
    ensures UpperDigit(DigitValue(c)) == Ascii.ToUpperChar(c)
  {
  }

  /** How the encoder spells back a character of an accepted pair: a digit in upper
      case, and a leading '+' as the high digit 0 it stands for. */
  function CanonChar(c: char): char
  {
    if c == '+' then '0' else Ascii.ToUpperChar(c)
  }

  function Canonical(s: string): (r: string)
    ensures |r| == |s| && forall i :: 0 <= i < |s| ==> r[i] == CanonChar(s[i])
  {
    seq(|s|, i requires 0 <= i < |s| => CanonChar(s[i]))
  }

  /** The byte an accepted pair denotes: the one the encoder spells as the pair itself,
      upper-cased, with a '+' read as a high digit 0. */
  function PairValue(hi: char, lo: char): (b: byte)
    requires IsPair(hi, lo)
    ensures UpperDigit(b as int / 16) == CanonChar(hi)
    ensures UpperDigit(b as int % 16) == CanonChar(lo)
  {
    UpperDigitOfValue(lo);
    if hi == '+' then DigitValue(lo) as byte
    else
      UpperDigitOfValue(hi);
      (16 * DigitValue(hi) + DigitValue(lo)) as byte
  }

  /** Converts hexadecimal text to bytes, one byte per pair, failing on the first pair
      it cannot convert in the order the source's loop visits them. */
  function HexStringToBytes(hex: string): (r: Result<seq<byte>, HexError>)
    ensures r.Success? <==> IsHexString(hex)
    ensures r.Success? ==> |r.value| == |hex| / 2
    ensures r.Success? ==> forall k :: 0 <= k < |r.value| ==>
              IsPair(hex[2 * k], hex[2 * k + 1]) && r.value[k] == PairValue(hex[2 * k], hex[2 * k + 1])
    ensures r == Failure(OddLength) <==> |hex| % 2 == 1 && IsHexString(hex[..|hex| - 1])
    decreases |hex|
  {
    assert |hex| >= 3 ==> hex[2..][..|hex| - 3] == hex[..|hex| - 1][2..];
    if |hex| == 0 then Success([])
    else if |hex| == 1 then Failure(OddLength)
    else if !IsPair(hex[0], hex[1]) then Failure(InvalidDigit)
    else
      match HexStringToBytes(hex[2..])
      case Failure(e) => Failure(e)
      case Success(rest) => Success([PairValue(hex[0], hex[1])] + rest)
  }

  /** Writes each byte as two upper-case hexadecimal digits. */
  function ToHex(bytes: seq<byte>): (s: string)
    ensures |s| == 2 * |bytes|
    ensures IsUpperHexString(s)
  {
    if bytes == [] then ""
    else [UpperDigit(bytes[0] as int / 16), UpperDigit(bytes[0] as int % 16)] + ToHex(bytes[1..])
  }

  /** Upper-case hexadecimal text is accepted, and is its own canonical spelling. */
  lemma {:induction false} UpperHexIsHex(s: string)
    requires IsUpperHexString(s)
    ensures IsHexString(s) && Canonical(s) == s
    decreases |s|
  {
    if |s| >= 2 {
      assert IsUpperHexString(s[2..]);
      UpperHexIsHex(s[2..]);
      assert IsPair(s[0], s[1]);
    }
  }

  /** Decoding inverts encoding. */
  lemma {:induction false} DecodeEncode(bytes: seq<byte>)
    ensures HexStringToBytes(ToHex(bytes)) == Success(bytes)
  {
    if bytes != [] {
      var b := bytes[0];
      var hi, lo := UpperDigit(b as int / 16), UpperDigit(b as int % 16);
      DigitValueOfUpperDigit(b as int / 16);
      DigitValueOfUpperDigit(b as int % 16);
      assert PairValue(hi, lo) == b;
      var s := ToHex(bytes);
      assert s == [hi, lo] + ToHex(bytes[1..]);
      assert s[0] == hi && s[1] == lo && s[2..] == ToHex(bytes[1..]);
      DecodeEncode(bytes[1..]);
      assert bytes == [b] + bytes[1..];
    }
  }

  /** Encoding the bytes of accepted text spells the text again in canonical form:
      upper case, with each '+' sign written as the digit 0 it stands for. */
  lemma {:induction false} EncodeDecode(hex: string)
    requires IsHexString(hex)
    ensures HexStringToBytes(hex).Success?
    ensures ToHex(HexStringToBytes(hex).value) == Canonical(hex)
    decreases |hex|
  {
    if |hex| > 0 {
      var b := PairValue(hex[0], hex[1]);
      DecodeStep(hex);
      EncodeDecode(hex[2..]);
      var rest := HexStringToBytes(hex[2..]).value;
      ToHexCons(b, rest);
      CanonicalSplit(hex);
    }
  }

  /** Accepted text converts its first pair, then the rest. */
  lemma DecodeStep(hex: string)
    requires IsHexString(hex) && |hex| >= 2
    ensures IsHexString(hex[2..])
    ensures HexStringToBytes(hex) == Success([PairValue(hex[0], hex[1])] + HexStringToBytes(hex[2..]).value)
  {
  }

  lemma CanonicalSplit(s: string)
    requires |s| >= 2
    ensures Canonical(s) == [CanonChar(s[0]), CanonChar(s[1])] + Canonical(s[2..])
  {
  }

  lemma ToHexCons(b: byte, rest: seq<byte>)
    ensures ToHex([b] + rest) == [UpperDigit(b as int / 16), UpperDigit(b as int % 16)] + ToHex(rest)
  {
    assert ([b] + rest)[1..] == rest;
  }

  /** Upper-case hexadecimal text is exactly the encoding of its bytes. */
  lemma EncodeDecodeUpper(hex: string)
    requires IsUpperHexString(hex)
    ensures HexStringToBytes(hex).Success?
    ensures ToHex(HexStringToBytes(hex).value) == hex
  {
    UpperHexIsHex(hex);
    EncodeDecode(hex);
  }

  /** Hexadecimal digits are case-insensitive: text and its upper-cased form convert
      identically, failures included. */
  lemma {:induction false} CaseInsensitive(hex: string)
    ensures HexStringToBytes(Ascii.ToUpper(hex)) == HexStringToBytes(hex)
    decreases |hex|
  {
    var up := Ascii.ToUpper(hex);
    if |hex| >= 2 {
      assert up[2..] == Ascii.ToUpper(hex[2..]);
      CaseInsensitive(hex[2..]);
      PairCase(hex[0], hex[1]);
      assert up[0] == Ascii.ToUpperChar(hex[0]) && up[1] == Ascii.ToUpperChar(hex[1]);
    } else if |hex| == 1 {
      assert up == [Ascii.ToUpperChar(hex[0])];
    } else {
      assert up == [];
    }
  }

  /** Upper-casing both characters keeps a pair accepted or refused, and keeps its byte. */
  lemma PairCase(hi: char, lo: char)
    ensures IsPair(Ascii.ToUpperChar(hi), Ascii.ToUpperChar(lo)) <==> IsPair(hi, lo)
    ensures IsPair(hi, lo) ==> PairValue(Ascii.ToUpperChar(hi), Ascii.ToUpperChar(lo)) == PairValue(hi, lo)
  {
    DigitCase(hi);
    DigitCase(lo);
  }

  /** Upper-casing a character keeps it a hexadecimal digit or a non-digit, and keeps a digit's value. */
  lemma DigitCase(c: char)
    ensures IsHexDigit(Ascii.ToUpperChar(c)) <==> IsHexDigit(c)
    ensures IsHexDigit(c) ==> DigitValue(Ascii.ToUpperChar(c)) == DigitValue(c)
  {
  }

  /** A '+' before a digit is skipped, as `Convert.ToByte("+F", 16)` skips it; a '-'
      and a digit followed by a sign are refused. */
  lemma SignExample()
    ensures HexStringToBytes("+F") == Success([0x0F])
    ensures HexStringToBytes("0A+F") == Success([0x0A, 0x0F])
    ensures HexStringToBytes("-F") == Failure(InvalidDigit)
    ensures HexStringToBytes("F+") == Failure(InvalidDigit)
  {
    var plus, both := "+F", "0A+F";
    assert plus[0] == '+' && plus[1] == 'F' && plus[2..] == "";
    assert IsPair('+', 'F') && PairValue('+', 'F') == 0x0F;
    assert IsHexString(plus);
    var r := HexStringToBytes(plus).value;
    assert |r| == 1 && r[0] == 0x0F;
    assert r == [0x0F];
    assert both[0] == '0' && both[1] == 'A' && both[2..] == plus;
    assert IsPair('0', 'A') && PairValue('0', 'A') == 0x0A;
    assert IsHexString(both);
    var q := HexStringToBytes(both).value;
    assert |q| == 2 && q[0] == 0x0A && q[1] == 0x0F;
    assert q == [0x0A, 0x0F];
    assert "-F"[0] == '-' && !IsPair('-', 'F');
    assert "F+"[1] == '+' && !IsPair('F', '+');
  }

  /** Upper-, lower- and mixed-case digits convert to the same bytes. */
  lemma MixedCaseExample()
    ensures HexStringToBytes("ABCDEF") == Success([0xAB, 0xCD, 0xEF])
    ensures HexStringToBytes("abcdef") == Success([0xAB, 0xCD, 0xEF])
    ensures HexStringToBytes("AbCdEf") == Success([0xAB, 0xCD, 0xEF])
  {
    Decodes3("ABCDEF");
    UpperCaseExample("abcdef");
    UpperCaseExample("AbCdEf");
  }

  lemma UpperCaseExample(hex: string)
    requires hex == "abcdef" || hex == "AbCdEf"
    ensures HexStringToBytes(hex) == HexStringToBytes("ABCDEF")
  {
    var u := Ascii.ToUpper(hex);
    assert u[0] == 'A' && u[1] == 'B' && u[2] == 'C';
    assert u[3] == 'D' && u[4] == 'E' && u[5] == 'F';
    assert u == "ABCDEF";
    CaseInsensitive(hex);
  }

  lemma Decodes3(hex: string)
    requires hex == "ABCDEF"
    ensures HexStringToBytes(hex) == Success([0xAB, 0xCD, 0xEF])
  {
    UpperHexIsHex(hex);
    var r := HexStringToBytes(hex).value;
    assert r[0] == 0xAB && r[1] == 0xCD && r[2] == 0xEF;
    assert r == [0xAB, 0xCD, 0xEF];
  }

  /** The full-forward drive frame of the protocol table. */
  lemma FrameExample(hex: string)
    requires hex == "140202FF659D"
    ensures HexStringToBytes(hex) == Success([0x14, 0x02, 0x02, 0xFF, 0x65, 0x9D])
  {
    var bytes: seq<byte> := [0x14, 0x02, 0x02, 0xFF, 0x65, 0x9D];
    assert ToHex(bytes[5..]) == "9D";
    assert ToHex(bytes[4..]) == "659D";
    assert ToHex(bytes[3..]) == "FF659D";
    assert ToHex(bytes[2..]) == "02FF659D";
    assert ToHex(bytes[1..]) == "0202FF659D";
    assert ToHex(bytes) == hex;
    DecodeEncode(bytes);
  }
}
