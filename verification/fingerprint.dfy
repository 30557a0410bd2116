/**
 * The password's fingerprint: a SHA-256 digest rendered as lower-case hex,
 * two zero-padded digits per byte, with the empty password mapped to the
 * empty fingerprint before any digest is taken.
 *
 * The digest itself (UTF-8 encoding followed by SHA-256) is not modelled: it
 * enters every member as a parameter `sha256`, a total function whose
 * results are always 32 bytes long.
 */
module Fingerprint {

  datatype Option<+T> = None | Some(value: T)

  type byte = x: int | 0 <= x < 256

  /** A SHA-256 digest: exactly 32 bytes. */
  type Digest32 = s: seq<byte> | |s| == 32 witness seq(32, _ => 0)

  /** A lower-case hexadecimal digit. */
  predicate IsLowerHex(c: char)
  {
    '0' <= c <= '9' || 'a' <= c <= 'f'
  }

  /** The lower-case digit for a value below 16. */
  function HexDigit(d: nat): (c: char)
    requires d < 16
    ensures IsLowerHex(c)
    ensures d < 10 <==> '0' <= c <= '9'
  {
    if d < 10 then ('0' as int + d) as char else ('a' as int + (d - 10)) as char
  }

  /** The value of a lower-case hex digit; None for every other character. */
  function HexValue(c: char): (v: Option<nat>)
    ensures v.Some? <==> IsLowerHex(c)
    ensures v.Some? ==> v.value < 16 && HexDigit(v.value) == c
  {
    if '0' <= c <= '9' then Some(c as int - '0' as int)
    else if 'a' <= c <= 'f' then Some(c as int - 'a' as int + 10)
    else None
  }

  /** Reading back a digit gives the value it was written for. */
  lemma HexValueOfDigit(d: nat)
    requires d < 16
    ensures HexValue(HexDigit(d)) == Some(d)
  {
  }

  /**
   * Number.prototype.toString(16) on a non-negative integer: base 16,
   * lower-case digits, most significant first, no leading zeros.
   */
  function ToRadix16(n: nat): (s: string)
    ensures 1 <= |s|
    ensures n < 16 <==> |s| == 1
    ensures n < 16 ==> s == [HexDigit(n)]
    ensures 16 <= n < 256 ==> s == [HexDigit(n / 16), HexDigit(n % 16)]
    decreases n
  {
    if n < 16 then [HexDigit(n)] else ToRadix16(n / 16) + [HexDigit(n % 16)]
  }

  /** String.prototype.padStart with a one-character filler. */
  function PadStart(s: string, width: nat, fill: char): (r: string)
    ensures |r| == if |s| < width then width else |s|
    ensures r == seq(|r| - |s|, _ => fill) + s
  {
    if |s| < width then seq(width - |s|, _ => fill) + s else s
  }

  /** One byte as `b.toString(16).padStart(2, '0')`. */
  function ByteToHex(b: byte): (h: string)
    ensures h == [HexDigit(b / 16), HexDigit(b % 16)]
  {
    PadStart(ToRadix16(b), 2, '0')
  }

  /** Every byte mapped to its two digits and the pieces joined in order. */
  function EncodeHex(bs: seq<byte>): (s: string)
    ensures |s| == 2 * |bs|
  {
    if bs == [] then [] else ByteToHex(bs[0]) + EncodeHex(bs[1..])
  }

  /** Byte k of the input is written, high digit first, at positions 2k and 2k+1. */
  lemma {:induction false} EncodeHexAt(bs: seq<byte>, k: nat)
    requires k < |bs|
    ensures 2 * k + 1 < |EncodeHex(bs)|
    ensures EncodeHex(bs)[2 * k] == HexDigit(bs[k] / 16)
    ensures EncodeHex(bs)[2 * k + 1] == HexDigit(bs[k] % 16)
  {
    var h, rest := ByteToHex(bs[0]), EncodeHex(bs[1..]);
    assert EncodeHex(bs) == h + rest;
    if k == 0 {
      PairAt(h, rest, 0);
    } else {
      EncodeHexAt(bs[1..], k - 1);
      assert bs[1..][k - 1] == bs[k];
      PairAt(h, rest, k);
    }
  }

  /** The rendering is made of lower-case hex digits only. */
  lemma EncodeHexIsLowerHex(bs: seq<byte>)
    ensures forall i :: 0 <= i < |EncodeHex(bs)| ==> IsLowerHex(EncodeHex(bs)[i])
  {
    forall i | 0 <= i < |EncodeHex(bs)|
      ensures IsLowerHex(EncodeHex(bs)[i])
    {
      EncodeHexAt(bs, i / 2);
    }
  }

  /** Indexing past a two-character prefix. */
  lemma PairAt(h: string, rest: string, k: nat)
    requires |h| == 2 && 2 * k + 1 < |h| + |rest|
    ensures k == 0 ==> (h + rest)[0] == h[0] && (h + rest)[1] == h[1]
    ensures k > 0 ==> (h + rest)[2 * k] == rest[2 * (k - 1)] && (h + rest)[2 * k + 1] == rest[2 * (k - 1) + 1]
  {
  }

  /** Reads pairs of lower-case hex digits back into bytes; None on any other input. */
  function DecodeHex(s: string): (r: Option<seq<byte>>)
    ensures r.Some? ==> 2 * |r.value| == |s|
    decreases |s|
  {
    if s == [] then Some([])
    else if |s| < 2 then None
    else
      match (HexValue(s[0]), HexValue(s[1]), DecodeHex(s[2..]))
      case (Some(hi), Some(lo), Some(rest)) => Some([hi * 16 + lo] + rest)
      case _ => None
  }

  /** Decoding the digits of a byte sequence recovers the bytes. */
  lemma {:induction false} DecodeEncode(bs: seq<byte>)
    ensures DecodeHex(EncodeHex(bs)) == Some(bs)
  {
    if bs != [] {
      var rest := EncodeHex(bs[1..]);
      assert EncodeHex(bs) == ByteToHex(bs[0]) + rest;
      DecodeEncode(bs[1..]);
      DecodePair(bs[0], rest, bs[1..]);
      assert [bs[0]] + bs[1..] == bs;
    }
  }

  /** The two digits of a byte in front of a decodable rest decode to that byte in front. */
  lemma DecodePair(b: byte, rest: string, tail: seq<byte>)
    requires DecodeHex(rest) == Some(tail)
    ensures DecodeHex(ByteToHex(b) + rest) == Some([b] + tail)
  {
    var hi, lo := b / 16, b % 16;
    var s := ByteToHex(b) + rest;
    assert s[0] == HexDigit(hi) && s[1] == HexDigit(lo) && s[2..] == rest;
    HexValueOfDigit(hi);
    HexValueOfDigit(lo);
    assert hi * 16 + lo == b;
  }

  /** Distinct byte sequences never share a hex rendering. */
  lemma EncodeHexInjective(a: seq<byte>, b: seq<byte>)
    requires EncodeHex(a) == EncodeHex(b)
    ensures a == b
  {
    DecodeEncode(a);
    DecodeEncode(b);
  }

  /**
   * calculateHash: the empty password gives the empty fingerprint whatever
   * the digest function; any other password gives the 64 hex digits of its
   * digest, from which the digest can be read back.
   */
  function CalculateHash(text: string, sha256: string -> Digest32): (h: string)
    ensures text == [] ==> h == []
    ensures text != [] ==> |h| == 64 && DecodeHex(h) == Some(sha256(text))
  {
    if text == [] then [] else
      DecodeEncode(sha256(text));
      EncodeHex(sha256(text))
  }

  /**
   * Two non-empty passwords share a fingerprint exactly when their digests
   * agree: the hex rendering neither truncates nor merges digests.
   */
  lemma FingerprintMatchesDigest(a: string, b: string, sha256: string -> Digest32)
    requires a != [] && b != []
    ensures CalculateHash(a, sha256) == CalculateHash(b, sha256) <==> sha256(a) == sha256(b)
  {
    if CalculateHash(a, sha256) == CalculateHash(b, sha256) {
      EncodeHexInjective(sha256(a), sha256(b));
    }
  }
}
