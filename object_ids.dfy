/**
 * The document store's identifiers (bson ObjectId): twelve bytes, written
 * externally as twenty-four hexadecimal digits. Converting a string to an
 * identifier succeeds exactly when it has length 24 and every character is
 * a hex digit of either case; printing an identifier gives lower-case digits.
 */
module ObjectIds {
  import opened Wrappers

  newtype byte = x: int | 0 <= x < 256

  type Bytes12 = s: seq<byte> | |s| == 12 witness [0, 0, 0, 0, 0, 0, 0, 0, 0, 0, 0, 0]

  datatype ObjectId = ObjectId(bytes: Bytes12)

  const Digits: string := "0123456789abcdef"

  predicate IsHexDigit(c: char) {
    ('0' <= c <= '9') || ('a' <= c <= 'f') || ('A' <= c <= 'F')
  }

  /** The value of one hex digit, upper or lower case. */
  function DigitValue(c: char): (n: nat)
    requires IsHexDigit(c)
    ensures n < 16
  {
    if '0' <= c <= '9' then c as int - '0' as int
    else if 'a' <= c <= 'f' then c as int - 'a' as int + 10
    else c as int - 'A' as int + 10
  }

  /** The lower-case spelling of a hex digit. */
  function Lower(c: char): (d: char)
    requires IsHexDigit(c)
    ensures d in Digits && DigitValue(d) == DigitValue(c)
    ensures ('0' <= c <= '9' || 'a' <= c <= 'f') ==> d == c
  {
    Digits[DigitValue(c)]
  }

  function LowerAll(s: string): (r: string)
    requires forall i :: 0 <= i < |s| ==> IsHexDigit(s[i])
    ensures |r| == |s|
    ensures forall i :: 0 <= i < |s| ==> r[i] == Lower(s[i])
  {
    if s == [] then [] else [Lower(s[0])] + LowerAll(s[1..])
  }

  /** Hex digits taken two at a time, high nibble first (bytes.fromhex). */
  function ParseHexBytes(s: string): (r: Option<seq<byte>>)
    ensures r.Some? ==> 2 * |r.value| == |s|
    decreases |s|
  {
    if s == [] then Some([])
    else if |s| < 2 || !IsHexDigit(s[0]) || !IsHexDigit(s[1]) then None
    else
      match ParseHexBytes(s[2..])
      case None => None
      case Some(rest) => Some([PairValue(s[0], s[1])] + rest)
  }

  /** The byte two hex digits spell, high nibble first. */
  function PairValue(c0: char, c1: char): byte
    requires IsHexDigit(c0) && IsHexDigit(c1)
  {
    (DigitValue(c0) * 16 + DigitValue(c1)) as byte
  }

  /** Hex decoding accepts exactly an even number of hex digits. */
  lemma {:induction false} ParseHexBytesAccepts(s: string)
    ensures ParseHexBytes(s).Some? <==> (|s| % 2 == 0 && forall i :: 0 <= i < |s| ==> IsHexDigit(s[i]))
    decreases |s|
  {
    if |s| >= 2 {
      ParseHexBytesAccepts(s[2..]);
      assert forall i :: 2 <= i < |s| ==> s[i] == s[2..][i - 2];
    }
  }

  /** Lower-case hex spelling of a byte string. */
  function HexOf(bs: seq<byte>): (r: string)
    ensures |r| == 2 * |bs|
  {
    if bs == [] then []
    else [Digits[bs[0] as int / 16], Digits[bs[0] as int % 16]] + HexOf(bs[1..])
  }

  /** Conversion of a string to an identifier; None stands for the invalid-id exception. */
  function ParseObjectId(s: string): (r: Option<ObjectId>)
    ensures r.Some? <==> (|s| == 24 && forall i :: 0 <= i < |s| ==> IsHexDigit(s[i]))
  {
    ParseHexBytesAccepts(s);
    if |s| != 24 then None
    else
      match ParseHexBytes(s)
      case None => None
      case Some(bs) => Some(ObjectId(bs))
  }

  /** The string form of an identifier: twenty-four lower-case hex digits. */
  function IdString(o: ObjectId): (r: string)
    ensures |r| == 24
    ensures forall i :: 0 <= i < |r| ==> r[i] in Digits
  {
    HexOfDigits(o.bytes);
    HexOf(o.bytes)
  }

  lemma {:induction false} HexOfDigits(bs: seq<byte>)
    ensures forall i :: 0 <= i < |HexOf(bs)| ==> HexOf(bs)[i] in Digits
  {
    if bs != [] {
      HexOfDigits(bs[1..]);
      var t := HexOf(bs[1..]);
      assert HexOf(bs) == [Digits[bs[0] as int / 16], Digits[bs[0] as int % 16]] + t;
    }
  }

  lemma DigitValueOfDigits(n: nat)
    requires n < 16
    ensures IsHexDigit(Digits[n]) && DigitValue(Digits[n]) == n
  {
  }

  /** A byte is its high nibble times sixteen plus its low nibble, and back. */
  lemma Nibbles(hi: int, lo: int, b: int)
    requires 0 <= hi < 16 && 0 <= lo < 16
    ensures b == hi * 16 + lo <==> (0 <= b < 256 && b / 16 == hi && b % 16 == lo)
  {
  }

  /** Parsing two hex digits followed by more. */
  lemma ParseHexPair(c0: char, c1: char, t: string, rest: seq<byte>)
    requires IsHexDigit(c0) && IsHexDigit(c1) && ParseHexBytes(t) == Some(rest)
    ensures ParseHexBytes([c0, c1] + t) == Some([PairValue(c0, c1)] + rest)
  {
    assert ([c0, c1] + t)[2..] == t;
  }

  lemma {:induction false} ParseHexOf(bs: seq<byte>)
    ensures ParseHexBytes(HexOf(bs)) == Some(bs)
  {
    if bs != [] {
      var b := bs[0] as int;
      var hi, lo := b / 16, b % 16;
      var c0, c1, t := Digits[hi], Digits[lo], HexOf(bs[1..]);
      assert HexOf(bs) == [c0, c1] + t;
      assert IsHexDigit(c0) && IsHexDigit(c1) && PairValue(c0, c1) == bs[0] by {
        DigitValueOfDigits(hi);
        DigitValueOfDigits(lo);
        Nibbles(hi, lo, b);
      }
      ParseHexOf(bs[1..]);
      ParseHexPair(c0, c1, t, bs[1..]);
      assert [bs[0]] + bs[1..] == bs;
    }
  }

  lemma {:induction false} HexOfParse(s: string, bs: seq<byte>)
    requires ParseHexBytes(s) == Some(bs)
    ensures forall i :: 0 <= i < |s| ==> IsHexDigit(s[i])
    ensures HexOf(bs) == LowerAll(s)
    decreases |s|
  {
    ParseHexBytesAccepts(s);
    if s != [] {
      var c0, c1, t := s[0], s[1], s[2..];
      var rest := ParseHexBytes(t).value;
      assert bs == [PairValue(c0, c1)] + rest by {
        assert s == [c0, c1] + t;
        ParseHexPair(c0, c1, t, rest);
      }
      assert HexOf(bs) == [Lower(c0), Lower(c1)] + HexOf(rest) by {
        var b := bs[0] as int;
        assert b / 16 == DigitValue(c0) && b % 16 == DigitValue(c1) by {
          Nibbles(DigitValue(c0), DigitValue(c1), b);
        }
        assert bs[1..] == rest;
      }
      HexOfParse(t, rest);
      assert LowerAll(s) == [Lower(c0), Lower(c1)] + LowerAll(t) by {
        assert LowerAll(s)[1..] == LowerAll(s[1..]);
        assert LowerAll(s[1..])[1..] == LowerAll(t) by { assert s[1..][1..] == t; }
      }
    }
  }

  /** Every identifier survives printing followed by parsing. */
  lemma ParseIdString(o: ObjectId)
    ensures ParseObjectId(IdString(o)) == Some(o)
  {
    ParseHexOf(o.bytes);
  }

  /** A parsed identifier prints as the lower-case form of what was parsed. */
  lemma IdStringOfParse(s: string, o: ObjectId)
    requires ParseObjectId(s) == Some(o)
    ensures IdString(o) == LowerAll(s)
  {
    HexOfParse(s, o.bytes);
  }

  /** Distinct identifiers have distinct string forms. */
  lemma IdStringInjective(a: ObjectId, b: ObjectId)
    requires IdString(a) == IdString(b)
    ensures a == b
  {
    ParseIdString(a);
    ParseIdString(b);
  }
}
