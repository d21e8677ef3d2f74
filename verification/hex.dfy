/**
 Hexadecimal text as the application reads and writes it: a payload typed as
 pairs of hex digits (spaces ignored) is decoded into bytes for transmission,
 and a received payload is rendered as two upper-case hex digits per byte,
 separated by single spaces.
 */
module Hex {
  import opened Seqs

  /** One octet of a CAN payload. */
  type Byte = b: int | 0 <= b < 0x100

  predicate IsHexDigit(c: char) {
    '0' <= c <= '9' || 'a' <= c <= 'f' || 'A' <= c <= 'F'
  }

  predicate IsUpperHexDigit(c: char) {
    '0' <= c <= '9' || 'A' <= c <= 'F'
  }

  /** Hex digits and nothing else. */
  predicate IsHexString(s: string) {
    forall i :: 0 <= i < |s| ==> IsHexDigit(s[i])
  }

  /** The decoder's domain: hex digits and spaces. */
  predicate IsHexText(s: string) {
    forall i :: 0 <= i < |s| ==> IsHexDigit(s[i]) || s[i] == ' '
  }

  /** The value of one digit, in either case. */
  function DigitValue(c: char): (v: nat)
    requires IsHexDigit(c)
    ensures v < 16
    ensures '0' <= c <= '9' ==> v < 10
  {
    if '0' <= c <= '9' then c as int - '0' as int
    else if 'a' <= c <= 'f' then c as int - 'a' as int + 10
    else c as int - 'A' as int + 10
  }

  /** The upper-case digit for a value below 16, the inverse of DigitValue. */
  function UpperDigit(d: nat): (c: char)
    requires d < 16
    ensures IsUpperHexDigit(c) && IsHexDigit(c)
    ensures DigitValue(c) == d
  {
    if d < 10 then ('0' as int + d) as char else ('A' as int + d - 10) as char
  }

  /** The lower-case digit for a value below 16, as Python's hex() writes it. */
  function LowerDigit(d: nat): (c: char)
    requires d < 16
    ensures IsHexDigit(c) && !('A' <= c <= 'F')
    ensures DigitValue(c) == d
  {
    if d < 10 then ('0' as int + d) as char else ('a' as int + d - 10) as char
  }

  function Pow16(n: nat): (p: nat)
    ensures p >= 1
  {
    if n == 0 then 1 else 16 * Pow16(n - 1)
  }

  /**
   The number a string of hex digits denotes, most significant digit first.
   A string of n digits denotes a number below 16^n.
   */
  function HexValue(s: string): (v: nat)
    requires IsHexString(s)
    ensures v < Pow16(|s|)
  {
    if s == [] then 0 else 16 * HexValue(s[..|s| - 1]) + DigitValue(s[|s| - 1])
  }

  /** The value of a two-digit string is the high digit times 16 plus the low digit. */
  lemma HexValuePair(s: string)
    requires |s| == 2 && IsHexString(s)
    ensures HexValue(s) == 16 * DigitValue(s[0]) + DigitValue(s[1])
  {
    assert s[..1][..0] == [];
  }

  /** The value of a one-digit string is that digit's value. */
  lemma HexValueSingle(s: string)
    requires |s| == 1 && IsHexString(s)
    ensures HexValue(s) == DigitValue(s[0])
  {
    assert s[..0] == [];
  }

  /** Leading zeros do not change the value of a digit string. */
  lemma {:induction false} HexValueLeadingZero(s: string)
    requires IsHexString(s)
    ensures IsHexString("0" + s) && HexValue("0" + s) == HexValue(s)
  {
    var t := "0" + s;
    if s == [] {
      assert t[..0] == [];
    } else {
      assert t[..|t| - 1] == "0" + s[..|s| - 1];
      assert t[|t| - 1] == s[|s| - 1];
      HexValueLeadingZero(s[..|s| - 1]);
    }
  }

  /** The digits of Python's hex() of a number: lower case, most significant first, no padding. */
  function LowerDigits(n: nat): (s: string)
    ensures |s| >= 1 && IsHexString(s)
    ensures n > 0 ==> s[0] != '0'
    ensures n < 16 ==> |s| == 1
    ensures forall i :: 0 <= i < |s| ==> !('A' <= s[i] <= 'F')
    decreases n
  {
    if n < 16 then [LowerDigit(n)] else LowerDigits(n / 16) + [LowerDigit(n % 16)]
  }

  /** Python's hex() of a non-negative number. */
  function HexLiteral(n: nat): (s: string)
    ensures |s| >= 3 && s[..2] == "0x" && IsHexString(s[2..])
  {
    "0x" + LowerDigits(n)
  }

  /** The digits hex() writes read back as the number written. */
  lemma {:induction false} LowerDigitsValue(n: nat)
    ensures HexValue(LowerDigits(n)) == n
    decreases n
  {
    var s := LowerDigits(n);
    if n < 16 {
      assert s[..0] == [];
    } else {
      LowerDigitsValue(n / 16);
      assert s[..|s| - 1] == LowerDigits(n / 16);
    }
  }

  /** The text with every space deleted, all other characters kept in order. */
  function RemoveSpaces(s: string): (t: string)
    ensures ' ' !in t
    ensures |t| <= |s|
    ensures IsHexText(s) ==> IsHexString(t)
    ensures ' ' !in s ==> t == s
  {
    if s == [] then []
    else (if s[0] == ' ' then [] else [s[0]]) + RemoveSpaces(s[1..])
  }

  /** Deleting spaces works piece by piece. */
  lemma {:induction false} RemoveSpacesAppend(a: string, b: string)
    ensures RemoveSpaces(a + b) == RemoveSpaces(a) + RemoveSpaces(b)
  {
    if a == [] {
      assert a + b == b;
    } else {
      var h := if a[0] == ' ' then [] else [a[0]];
      assert (a + b)[0] == a[0] && (a + b)[1..] == a[1..] + b;
      calc {
        RemoveSpaces(a + b);
        h + RemoveSpaces(a[1..] + b);
        { RemoveSpacesAppend(a[1..], b); }
        h + (RemoveSpaces(a[1..]) + RemoveSpaces(b));
        { AppendAssoc(h, RemoveSpaces(a[1..]), RemoveSpaces(b)); }
        RemoveSpaces(a) + RemoveSpaces(b);
      }
    }
  }

  /** Deleting spaces twice is deleting them once. */
  lemma RemoveSpacesIdempotent(s: string)
    ensures RemoveSpaces(RemoveSpaces(s)) == RemoveSpaces(s)
  {
  }

  /**
   Cuts a digit string into consecutive two-character chunks, reading each as
   a number; an odd length leaves a final one-character chunk.
   */
  function DecodeDigits(t: string): (r: seq<Byte>)
    requires IsHexString(t)
    ensures |r| == (|t| + 1) / 2
  {
    if t == [] then []
    else
      var n := if |t| < 2 then |t| else 2;
      assert Pow16(n) <= 0x100;
      [HexValue(t[..n])] + DecodeDigits(t[n..])
  }

  /** The payload text as the bytes handed to transmit. */
  function DecodePayload(s: string): (r: seq<Byte>)
    requires IsHexText(s)
    ensures |r| == (|RemoveSpaces(s)| + 1) / 2
  {
    DecodeDigits(RemoveSpaces(s))
  }

  /**
   Byte i of the decoding is read from characters 2i and 2i+1 of the digits;
   an odd trailing character is a byte on its own.
   */
  lemma {:induction false} DecodeDigitsAt(t: string, i: nat)
    requires IsHexString(t)
    requires i < (|t| + 1) / 2
    ensures 2 * i + 1 < |t| ==> DecodeDigits(t)[i] == 16 * DigitValue(t[2 * i]) + DigitValue(t[2 * i + 1])
    ensures 2 * i + 1 == |t| ==> DecodeDigits(t)[i] == DigitValue(t[2 * i])
  {
    if i == 0 {
      if |t| >= 2 {
        HexValuePair(t[..2]);
      } else {
        HexValueSingle(t[..1]);
      }
    } else {
      DecodeDigitsAt(t[2..], i - 1);
    }
  }

  /** The same statement for the payload text itself: spaces play no part. */
  lemma DecodePayloadAt(s: string, i: nat)
    requires IsHexText(s)
    requires i < |DecodePayload(s)|
    ensures var t := RemoveSpaces(s);
      && (2 * i + 1 < |t| ==> DecodePayload(s)[i] == 16 * DigitValue(t[2 * i]) + DigitValue(t[2 * i + 1]))
      && (2 * i + 1 == |t| ==> DecodePayload(s)[i] == DigitValue(t[2 * i]))
  {
    DecodeDigitsAt(RemoveSpaces(s), i);
  }

  lemma IsHexTextAppend(a: string, b: string)
    requires IsHexText(a) && IsHexText(b)
    ensures IsHexText(a + b)
  {
    forall i | 0 <= i < |a + b| ensures IsHexDigit((a + b)[i]) || (a + b)[i] == ' ' {
      if i < |a| {
        assert (a + b)[i] == a[i];
      } else {
        assert (a + b)[i] == b[i - |a|];
      }
    }
  }

  /** A space anywhere in the text does not change the decoded bytes. */
  lemma DecodeIgnoresSpace(a: string, b: string)
    requires IsHexText(a) && IsHexText(b)
    ensures IsHexText(a + " " + b) && IsHexText(a + b)
    ensures DecodePayload(a + " " + b) == DecodePayload(a + b)
  {
    IsHexTextAppend(a, " ");
    IsHexTextAppend(a + " ", b);
    IsHexTextAppend(a, b);
    RemoveSpacesDropsSpace(a, b);
  }

  lemma RemoveSpacesDropsSpace(a: string, b: string)
    ensures RemoveSpaces(a + " " + b) == RemoveSpaces(a + b)
  {
    assert RemoveSpaces(" ") == [] by {
      assert " "[1..] == [];
    }
    RemoveSpacesAppend(a + " ", b);
    RemoveSpacesAppend(a, " ");
    RemoveSpacesAppend(a, b);
  }

  /** Two upper-case hex digits for one byte, as the format "02X" renders it. */
  function FormatByte(b: Byte): (r: string)
    ensures |r| == 2 && IsUpperHexDigit(r[0]) && IsUpperHexDigit(r[1])
    ensures DigitValue(r[0]) == b / 16 && DigitValue(r[1]) == b % 16
  {
    [UpperDigit(b / 16), UpperDigit(b % 16)]
  }

  /** The two digits read back as the byte they render. */
  lemma FormatByteValue(b: Byte)
    ensures IsHexString(FormatByte(b)) && HexValue(FormatByte(b)) == b
  {
    HexValuePair(FormatByte(b));
  }

  /** The bytes rendered as two-digit groups joined by single spaces. */
  function FormatPayload(bs: seq<Byte>): (r: string)
    ensures |r| == if bs == [] then 0 else 3 * |bs| - 1
  {
    if |bs| == 0 then ""
    else if |bs| == 1 then FormatByte(bs[0])
    else FormatByte(bs[0]) + " " + FormatPayload(bs[1..])
  }

  /**
   The rendering has exactly one two-digit group per byte: group i sits at
   characters 3i and 3i+1 and spells byte i, and a single space follows every
   group but the last.
   */
  lemma {:induction false} FormatPayloadAt(bs: seq<Byte>, i: nat)
    requires i < |bs|
    ensures FormatPayload(bs)[3 * i .. 3 * i + 2] == FormatByte(bs[i])
    ensures i + 1 < |bs| ==> FormatPayload(bs)[3 * i + 2] == ' '
  {
    if |bs| > 1 {
      var head := FormatByte(bs[0]) + " ";
      var rest := FormatPayload(bs[1..]);
      assert FormatPayload(bs) == head + rest && |head| == 3;
      if i == 0 {
        SliceInHead(head, rest, 0, 2);
        assert head[0..2] == FormatByte(bs[0]);
      } else {
        FormatPayloadAt(bs[1..], i - 1);
        SliceInTail(head, rest, 3 * (i - 1), 3 * (i - 1) + 2);
      }
    } else {
      assert FormatPayload(bs)[0..2] == FormatByte(bs[0]);
    }
  }

  /** The rendering is itself valid payload text. */
  lemma {:induction false} FormatPayloadIsHexText(bs: seq<Byte>)
    ensures IsHexText(FormatPayload(bs))
  {
    if |bs| > 1 {
      FormatPayloadIsHexText(bs[1..]);
    }
  }

  /** The digits of the rendering once the separators are gone. */
  function Digits(bs: seq<Byte>): string
  {
    if bs == [] then "" else FormatByte(bs[0]) + Digits(bs[1..])
  }

  lemma {:induction false} RemoveSpacesFormat(bs: seq<Byte>)
    ensures RemoveSpaces(FormatPayload(bs)) == Digits(bs)
  {
    if |bs| == 1 {
      assert Digits(bs) == FormatByte(bs[0]) + Digits([]);
    } else if |bs| > 1 {
      RemoveSpacesFormat(bs[1..]);
      RemoveSpacesAppend(FormatByte(bs[0]) + " ", FormatPayload(bs[1..]));
      RemoveSpacesAppend(FormatByte(bs[0]), " ");
    }
  }

  lemma {:induction false} DecodeDigitsOfFormat(bs: seq<Byte>)
    ensures IsHexString(Digits(bs)) && DecodeDigits(Digits(bs)) == bs
  {
    if bs != [] {
      DecodeDigitsOfFormat(bs[1..]);
      var t := Digits(bs);
      FormatByteValue(bs[0]);
      assert t[..2] == FormatByte(bs[0]);
      assert t[2..] == Digits(bs[1..]);
    }
  }

  /** Decoding what the receive path prints gives back the received bytes. */
  lemma FormatThenDecode(bs: seq<Byte>)
    ensures IsHexText(FormatPayload(bs))
    ensures DecodePayload(FormatPayload(bs)) == bs
  {
    FormatPayloadIsHexText(bs);
    RemoveSpacesFormat(bs);
    DecodeDigitsOfFormat(bs);
  }

  /** The worked example: "DE AD" is the two bytes 0xDE 0xAD. */
  lemma DecodeExample()
    ensures IsHexText("DE AD")
    ensures DecodePayload("DE AD") == [0xDE, 0xAD]
  {
    var bs: seq<Byte> := [0xDE, 0xAD];
    assert bs[1..] == [0xAD];
    assert FormatPayload(bs[1..]) == "AD";
    assert FormatPayload(bs) == "DE AD";
    FormatThenDecode(bs);
  }
}
