/**
 * Bytes and their hexadecimal text: Python's `bytes.hex()` (two lower-case
 * digits per byte) and `int(pair, 16)` (either case), which the BLE and WLAN
 * code use to move between raw radio bytes and the strings they store.
 */
module HexCodec {

  type Byte = x: int | 0 <= x < 256

  function HexDigit(d: nat): char
    requires d < 16
  {
    if d < 10 then ('0' as int + d) as char else ('a' as int + d - 10) as char
  }

  predicate IsHexDigit(c: char)
  {
    '0' <= c <= '9' || 'a' <= c <= 'f' || 'A' <= c <= 'F'
  }

  predicate IsLowerHexDigit(c: char)
  {
    '0' <= c <= '9' || 'a' <= c <= 'f'
  }

  /** `int(c, 16)` for one hexadecimal digit. */
  function HexValue(c: char): (v: nat)
    requires IsHexDigit(c)
    ensures v < 16
  {
    if '0' <= c <= '9' then c as int - '0' as int
    else if 'a' <= c <= 'f' then c as int - 'a' as int + 10
    else c as int - 'A' as int + 10
  }

  /** The two digits `bytes([b]).hex()` gives. */
  function ByteHex(b: Byte): string
  {
    [HexDigit(b / 16), HexDigit(b % 16)]
  }

  /** `bytes(bs).hex()`. */
  function Hex(bs: seq<Byte>): (r: string)
    ensures |r| == 2 * |bs|
  {
    if bs == [] then "" else ByteHex(bs[0]) + Hex(bs[1..])
  }

  /** A string made of whole hexadecimal byte pairs, as `bytes.hex()` produces. */
  predicate IsHexString(s: string)
  {
    |s| % 2 == 0 && forall k :: 0 <= k < |s| ==> IsHexDigit(s[k])
  }

  /** Splitting into pairs and applying `int(pair, 16)` to each. */
  function HexToBytes(s: string): (r: seq<Byte>)
    requires IsHexString(s)
    ensures |r| == |s| / 2
  {
    if s == [] then []
    else [16 * HexValue(s[0]) + HexValue(s[1])] + HexToBytes(s[2..])
  }

  lemma HexDigitValue(d: nat)
    requires d < 16
    ensures IsLowerHexDigit(HexDigit(d)) && HexValue(HexDigit(d)) == d
  {
  }

  /** Every byte sequence has a hexadecimal text, and parsing that text gives the bytes back. */
  lemma {:induction false} HexRoundTrip(bs: seq<Byte>)
    ensures IsHexString(Hex(bs))
    ensures HexToBytes(Hex(bs)) == bs
  {
    if bs != [] {
      HexRoundTrip(bs[1..]);
      var b := bs[0];
      HexDigitValue(b / 16);
      HexDigitValue(b % 16);
      var h := Hex(bs);
      assert h == ByteHex(b) + Hex(bs[1..]);
      assert h[2..] == Hex(bs[1..]);
      forall k | 0 <= k < |h| ensures IsHexDigit(h[k]) {
        if k >= 2 {
          assert h[k] == Hex(bs[1..])[k - 2];
        }
      }
    }
  }

  /** The other direction: re-encoding the bytes of lower-case hexadecimal text gives that text. */
  lemma {:induction false} HexOfHexToBytes(s: string)
    requires IsHexString(s)
    requires forall k :: 0 <= k < |s| ==> IsLowerHexDigit(s[k])
    ensures Hex(HexToBytes(s)) == s
  {
    if s != [] {
      var b := 16 * HexValue(s[0]) + HexValue(s[1]);
      assert b / 16 == HexValue(s[0]) && b % 16 == HexValue(s[1]);
      assert ByteHex(b) == s[..2];
      assert s == s[..2] + s[2..];
      assert HexToBytes(s)[1..] == HexToBytes(s[2..]);
      HexOfHexToBytes(s[2..]);
    }
  }

  /** `hex` distributes over concatenation, so slicing bytes and slicing text agree. */
  lemma {:induction false} HexAppend(a: seq<Byte>, b: seq<Byte>)
    ensures Hex(a + b) == Hex(a) + Hex(b)
  {
    if a != [] {
      assert (a + b)[1..] == a[1..] + b;
      HexAppend(a[1..], b);
    } else {
      assert a + b == b;
    }
  }
}
