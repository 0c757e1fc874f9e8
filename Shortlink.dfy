/** The compact block permalink: `block_shortlink` drops the leading zero
    bytes of a block hash, keeps their count and the next six bytes, and
    Base58-encodes the result; `shortlink_block` expands it back into a hash
    prefix that a prefix search can resolve. */
module Shortlink {
  import opened Prelude
  import opened Hex
  import opened Externals

  datatype LinkError =
    | MalformedHex   // `decode('hex_codec')` raised on odd length or a non-hex character
    | PageNotFound   // base58 decoding failed
    | EmptyData      // `data[0]` on an empty decoding raised `IndexError`

  /** `hexb58(hex)`: the Base58 text of the bytes a hexadecimal string spells. */
  function HexB58(b58: Base58, hex: string): (r: Result<string, LinkError>)
    ensures r.Ok? <==> HexDecode(hex).Some?
    ensures r.Ok? ==> r.value == b58.encode(HexDecode(hex).value)
  {
    match HexDecode(hex)
    case None => Err(MalformedHex)
    case Some(bytes) => Ok(b58.encode(bytes))
  }

  /** `b58hex(text)`: the hexadecimal form of the bytes a Base58 text spells. */
  function B58Hex(b58: Base58, text: string): (r: Result<string, LinkError>)
    ensures r.Ok? <==> b58.decode(text).Some?
    ensures r.Ok? ==> HexDecode(r.value) == b58.decode(text)
  {
    match b58.decode(text)
    case None => Err(PageNotFound)
    case Some(bytes) => HexDecodeEncode(bytes); Ok(HexEncode(bytes))
  }

  /** The elided prefix: the leading zeros rounded down to an even count
      (`zeroes &= ~1`), so that it stands for whole bytes. */
  function ZeroDigitsKept(h: string): (e: nat)
    ensures e <= LeadingRun(h, '0') < e + 2 && e % 2 == 0
  {
    var z := LeadingRun(h, '0');
    z - z % 2
  }

  /** `block_shortlink(hash)`. */
  function BlockShortlink(b58: Base58, h: string): Result<string, LinkError>
  {
    var e := ZeroDigitsKept(h);
    HexB58(b58, Hex02(e / 2) + Slice(h, e, e + 12))
  }

  /** `shortlink_block(link)`: `'00' * data[0]` followed by the hex of the rest. */
  function ShortlinkBlock(b58: Base58, link: string): (r: Result<string, LinkError>)
    ensures r.Err? <==> b58.decode(link) == None || b58.decode(link) == Some([])
    ensures r.Ok? ==> |r.value| % 2 == 0 && IsLowerHex(r.value)
  {
    match b58.decode(link)
    case None => Err(PageNotFound)
    case Some(data) =>
      if data == [] then Err(EmptyData)
      else Ok(Repeat('0', (data[0] as int) * 2) + HexEncode(data[1..]))
  }

  /** The bytes `block_shortlink` encodes: the halved zero count, then the
      six bytes spelled by the next twelve digits. */
  lemma ShortlinkBytes(b58: Base58, h: string)
    requires |h| == 64 && IsLowerHex(h)
    ensures var e := ZeroDigitsKept(h);
            var tail := h[e..Min(e + 12, 64)];
            HexDecode(tail).Some? && HexEncode(HexDecode(tail).value) == tail &&
            BlockShortlink(b58, h) == Ok(b58.encode([(e / 2) as byte] + HexDecode(tail).value))
  {
    var e := ZeroDigitsKept(h);
    var tail := Slice(h, e, e + 12);
    assert tail == h[e..Min(e + 12, 64)];
    SliceIsLowerHex(h, e, Min(e + 12, 64));
    HexEncodeDecode(tail);
    ByteThenHex((e / 2) as byte, tail);
  }

  lemma SliceIsLowerHex(h: string, i: nat, j: nat)
    requires i <= j <= |h| && IsLowerHex(h)
    ensures IsLowerHex(h[i..j])
  {
    forall k | 0 <= k < j - i ensures IsLowerHexChar(h[i..j][k]) {
      assert h[i..j][k] == h[i + k];
    }
  }

  /** `'%02x' % n` in front of hexadecimal text decodes to the byte `n` in
      front of the text's bytes. */
  lemma ByteThenHex(n: byte, tail: string)
    requires HexDecode(tail).Some?
    ensures HexDecode(Hex02(n) + tail) == Some([n] + HexDecode(tail).value)
  {
    Hex02IsByte(n);
    HexDigitValue(n / 16);
    HexDigitValue(n % 16);
    assert Hex02(n) == [HexDigit(n / 16), HexDigit(n % 16)];
    HexDecodePair(HexDigit(n / 16), HexDigit(n % 16), tail);
  }

  /** The elided digits are all zeros. */
  lemma ZeroRun(h: string)
    ensures h[..ZeroDigitsKept(h)] == Repeat('0', ZeroDigitsKept(h))
  {
  }

  /** Round trip: for a 64-digit lower-case block hash, decoding the permalink
      gives the hash's first `e + 12` digits, `e` being its leading zero count
      rounded down to even (an odd count gives up one digit); past the end of
      the hash the prefix stops at the full hash. */
  lemma ShortlinkRoundTrip(b58: Base58, h: string)
    requires DecodesWhatItEncodes(b58)
    requires |h| == 64 && IsLowerHex(h)
    ensures BlockShortlink(b58, h).Ok?
    ensures ShortlinkBlock(b58, BlockShortlink(b58, h).value)
            == Ok(h[..Min(ZeroDigitsKept(h) + 12, 64)])
  {
    var e := ZeroDigitsKept(h);
    var tail := h[e..Min(e + 12, 64)];
    ShortlinkBytes(b58, h);
    var data := [(e / 2) as byte] + HexDecode(tail).value;
    ExpandEncoded(b58, data);
    assert data[0] as int * 2 == e && data[1..] == HexDecode(tail).value;
    ZeroRunThenTail(h);
  }

  /** Expanding the link of some bytes gives the zero run they count and the
      hexadecimal of the rest. */
  lemma ExpandEncoded(b58: Base58, data: seq<byte>)
    requires DecodesWhatItEncodes(b58) && data != []
    ensures ShortlinkBlock(b58, b58.encode(data)) == Ok(Repeat('0', (data[0] as int) * 2) + HexEncode(data[1..]))
  {
    assert b58.decode(b58.encode(data)) == Some(data);
  }

  /** A hash is its elided zeros followed by the kept digits. */
  lemma ZeroRunThenTail(h: string)
    requires |h| == 64
    ensures var e := ZeroDigitsKept(h);
            var m := Min(e + 12, 64);
            Repeat('0', e) + h[e..m] == h[..m]
  {
    var e := ZeroDigitsKept(h);
    var m := Min(e + 12, 64);
    ZeroRun(h);
    assert h[..m] == h[..e] + h[e..m];
  }

  /** The expansion is always a prefix of the hash, so it can only widen, never
      misdirect, the lookup that follows. */
  lemma ShortlinkIsPrefix(b58: Base58, h: string)
    requires DecodesWhatItEncodes(b58)
    requires |h| == 64 && IsLowerHex(h)
    ensures BlockShortlink(b58, h).Ok?
    ensures ShortlinkBlock(b58, BlockShortlink(b58, h).value).Ok?
    ensures StartsWith(h, ShortlinkBlock(b58, BlockShortlink(b58, h).value).value)
    ensures |ShortlinkBlock(b58, BlockShortlink(b58, h).value).value| >= Min(LeadingRun(h, '0') + 11, 64)
  {
    ShortlinkRoundTrip(b58, h);
  }
}
