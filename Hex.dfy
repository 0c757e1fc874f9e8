/** Python 2's `str.encode('hex')`, `str.decode('hex')` and `'%02x'`. */
module Hex {
  import opened Prelude

  /** The lower-case digit for a nibble, as `encode('hex')` and `'%x'` write it. */
  function HexDigit(d: int): char
    requires 0 <= d < 16
  {
    if d < 10 then ('0' as int + d) as char else ('a' as int + d - 10) as char
  }

  /** The value of one hexadecimal digit, either case; `None` for any other character. */
  function HexValue(c: char): Option<int>
  {
    if '0' <= c <= '9' then Some(c as int - '0' as int)
    else if 'a' <= c <= 'f' then Some(c as int - 'a' as int + 10)
    else if 'A' <= c <= 'F' then Some(c as int - 'A' as int + 10)
    else None
  }

  predicate IsLowerHexChar(c: char)
  {
    '0' <= c <= '9' || 'a' <= c <= 'f'
  }

  predicate IsLowerHex(s: string)
  {
    forall i :: 0 <= i < |s| ==> IsLowerHexChar(s[i])
  }

  /** `b.encode('hex')`: two lower-case digits per byte, high nibble first. */
  function HexEncode(b: seq<byte>): (s: string)
    ensures |s| == 2 * |b| && IsLowerHex(s)
  {
    if b == [] then [] else [HexDigit(b[0] / 16), HexDigit(b[0] % 16)] + HexEncode(b[1..])
  }

  /** `s.decode('hex')`: fails (Python raises `TypeError`) on an odd length or
      on a character that is not a hexadecimal digit. */
  function HexDecode(s: string): (r: Option<seq<byte>>)
    ensures r.Some? ==> 2 * |r.value| == |s|
  {
    if s == [] then Some([])
    else if |s| == 1 || HexValue(s[0]).None? || HexValue(s[1]).None? then None
    else
      match HexDecode(s[2..])
      case None => None
      case Some(rest) => Some([HexValue(s[0]).value * 16 + HexValue(s[1]).value] + rest)
  }

  /** `'%02x' % n`: at least two lower-case hexadecimal digits. */
  function Hex02(n: nat): (s: string)
    ensures |s| >= 2
  {
    if n < 16 then ['0', HexDigit(n)] else NatToHex(n)
  }

  function NatToHex(n: nat): (s: string)
    ensures |s| >= 1 && (n >= 16 ==> |s| >= 2)
  {
    if n < 16 then [HexDigit(n)] else NatToHex(n / 16) + [HexDigit(n % 16)]
  }

  lemma HexDigitValue(d: int)
    requires 0 <= d < 16
    ensures HexValue(HexDigit(d)) == Some(d) && IsLowerHexChar(HexDigit(d))
  {
  }

  /** Decoding undoes encoding. */
  lemma {:induction false} HexDecodeEncode(b: seq<byte>)
    ensures HexDecode(HexEncode(b)) == Some(b)
  {
    if b != [] {
      var s := HexEncode(b);
      HexDigitValue(b[0] / 16);
      HexDigitValue(b[0] % 16);
      assert s[2..] == HexEncode(b[1..]);
      HexDecodeEncode(b[1..]);
      assert [b[0]] + b[1..] == b;
    }
  }

  lemma LowerHexCharValue(c: char)
    requires IsLowerHexChar(c)
    ensures HexValue(c).Some? && 0 <= HexValue(c).value < 16 && HexDigit(HexValue(c).value) == c
  {
  }

  /** Encoding undoes decoding on even-length lower-case hexadecimal text. */
  lemma {:induction false} HexEncodeDecode(s: string)
    requires IsLowerHex(s) && |s| % 2 == 0
    ensures HexDecode(s).Some? && HexEncode(HexDecode(s).value) == s
    decreases |s|
  {
    if s != [] {
      var t := s[2..];
      assert IsLowerHex(t) by {
        forall i | 0 <= i < |t| ensures IsLowerHexChar(t[i]) {
          assert t[i] == s[i + 2];
        }
      }
      HexEncodeDecode(t);
      LowerHexCharValue(s[0]);
      LowerHexCharValue(s[1]);
      var hi := HexValue(s[0]).value;
      var lo := HexValue(s[1]).value;
      var rest := HexDecode(t).value;
      var x: byte := hi * 16 + lo;
      assert HexDecode(s) == Some([x] + rest);
      assert x / 16 == hi && x % 16 == lo;
      var b := [x] + rest;
      assert b[1..] == rest;
      assert HexEncode(b) == [HexDigit(hi), HexDigit(lo)] + HexEncode(rest);
      assert s == [s[0], s[1]] + t;
    }
  }

  /** Decoding two digits in front of more text puts their byte in front. */
  lemma HexDecodePair(c0: char, c1: char, t: string)
    requires HexValue(c0).Some? && HexValue(c1).Some? && HexDecode(t).Some?
    ensures HexDecode([c0, c1] + t) == Some([HexValue(c0).value * 16 + HexValue(c1).value] + HexDecode(t).value)
  {
    var s := [c0, c1] + t;
    assert s[0] == c0 && s[1] == c1 && s[2..] == t;
  }

  /** A byte below 256 is written as exactly its two-digit encoding. */
  lemma Hex02IsByte(n: nat)
    requires n < 256
    ensures Hex02(n) == HexEncode([n])
  {
    if n >= 16 {
      assert NatToHex(n / 16) == [HexDigit(n / 16)];
    }
  }
}
