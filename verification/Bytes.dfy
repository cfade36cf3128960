/** Bytes as numbers, and their lower-case hexadecimal text (section 8 of RFC 4648). */
module Bytes {

  type byte = b: int | 0 <= b < 256

  function Digit(n: int): char
    requires 0 <= n < 16
  {
    if n < 10 then ('0' as int + n) as char else ('a' as int + n - 10) as char
  }

  predicate IsDigit(c: char) {
    '0' <= c <= '9' || 'a' <= c <= 'f'
  }

  function DigitValue(c: char): (n: int)
    requires IsDigit(c)
    ensures 0 <= n < 16
  {
    if c <= '9' then c as int - '0' as int else c as int - 'a' as int + 10
  }

  lemma DigitsInvert(n: int, c: char)
    requires 0 <= n < 16 && IsDigit(c)
    ensures IsDigit(Digit(n)) && DigitValue(Digit(n)) == n
    ensures Digit(DigitValue(c)) == c
  {
  }

  /** `Buffer.from(bytes).toString("hex")` */
  function Hex(bytes: seq<byte>): string {
    if bytes == [] then ""
    else [Digit(bytes[0] / 16), Digit(bytes[0] % 16)] + Hex(bytes[1..])
  }

  predicate IsHex(text: string) {
    |text| % 2 == 0 && forall c :: c in text ==> IsDigit(c)
  }

  function Unhex(text: string): seq<byte>
    requires IsHex(text)
  {
    if text == "" then []
    else [DigitValue(text[0]) * 16 + DigitValue(text[1])] + Unhex(text[2..])
  }

  lemma UnhexPair(b: byte, text: string)
    requires IsHex(text)
    ensures var longer := [Digit(b / 16), Digit(b % 16)] + text;
            IsHex(longer) && Unhex(longer) == [b] + Unhex(text)
  {
    var longer := [Digit(b / 16), Digit(b % 16)] + text;
    DigitsInvert(b / 16, '0');
    DigitsInvert(b % 16, '0');
    assert longer[2..] == text;
  }

  lemma {:induction false} UnhexOfHex(bytes: seq<byte>)
    ensures IsHex(Hex(bytes)) && Unhex(Hex(bytes)) == bytes
  {
    if bytes != [] {
      UnhexOfHex(bytes[1..]);
      UnhexPair(bytes[0], Hex(bytes[1..]));
    }
  }

  lemma HexPair(high: char, low: char, bytes: seq<byte>)
    requires IsDigit(high) && IsDigit(low)
    ensures Hex([DigitValue(high) * 16 + DigitValue(low)] + bytes) == [high, low] + Hex(bytes)
  {
    var b := DigitValue(high) * 16 + DigitValue(low);
    DigitsInvert(0, high);
    DigitsInvert(0, low);
    assert b / 16 == DigitValue(high) && b % 16 == DigitValue(low);
    assert ([b] + bytes)[1..] == bytes;
  }

  lemma HexSplits(text: string)
    requires IsHex(text) && text != ""
    ensures IsDigit(text[0]) && IsDigit(text[1]) && IsHex(text[2..])
    ensures text == [text[0], text[1]] + text[2..]
    ensures Unhex(text) == [DigitValue(text[0]) * 16 + DigitValue(text[1])] + Unhex(text[2..])
  {
  }

  lemma {:induction false} HexOfUnhex(text: string)
    requires IsHex(text)
    ensures Hex(Unhex(text)) == text
    decreases |text|
  {
    if text != "" {
      var rest := text[2..];
      HexSplits(text);
      HexOfUnhex(rest);
      HexPair(text[0], text[1], Unhex(rest));
    }
  }

  lemma {:induction false} UnhexLength(text: string)
    requires IsHex(text)
    ensures 2 * |Unhex(text)| == |text|
    decreases |text|
  {
    if text != "" {
      UnhexLength(text[2..]);
    }
  }

  /** Different bytes give different texts, and the texts are exactly the even runs of lower-case digits. */
  lemma HexIsInjective(a: seq<byte>, b: seq<byte>)
    requires Hex(a) == Hex(b)
    ensures a == b
  {
    UnhexOfHex(a);
    UnhexOfHex(b);
  }

  lemma DigitTable(n: nat)
    requires n < 16
    ensures Digit(n) == "0123456789abcdef"[n]
  {
  }

  /** The text byte by byte: the high half first, then the low half, in the lower-case alphabet. */
  lemma {:induction false} HexAt(bytes: seq<byte>, i: nat)
    requires i < |bytes|
    ensures |Hex(bytes)| == 2 * |bytes|
    ensures Hex(bytes)[2 * i] == "0123456789abcdef"[bytes[i] / 16]
    ensures Hex(bytes)[2 * i + 1] == "0123456789abcdef"[bytes[i] % 16]
  {
    HexLength(bytes);
    if i == 0 {
      DigitTable(bytes[0] / 16);
      DigitTable(bytes[0] % 16);
    } else {
      HexAt(bytes[1..], i - 1);
      HexTail(bytes, i);
    }
  }

  lemma {:induction false} HexLength(bytes: seq<byte>)
    ensures |Hex(bytes)| == 2 * |bytes|
  {
    if bytes != [] {
      HexLength(bytes[1..]);
    }
  }

  lemma HexTail(bytes: seq<byte>, i: nat)
    requires 0 < i < |bytes|
    ensures |Hex(bytes)| == 2 * |bytes| && |Hex(bytes[1..])| == 2 * |bytes| - 2
    ensures Hex(bytes)[2 * i] == Hex(bytes[1..])[2 * i - 2] && Hex(bytes)[2 * i + 1] == Hex(bytes[1..])[2 * i - 1]
  {
    HexLength(bytes);
    HexLength(bytes[1..]);
  }
}
