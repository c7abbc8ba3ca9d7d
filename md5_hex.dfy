/**
 * The `md5()` extension on `String`: the CommonCrypto digest of the string's
 * UTF-8 bytes, rendered as lowercase hexadecimal with the format `%02x` per
 * byte. The digest itself is foreign code and is passed in as a function.
 */
module Md5Hex {
  import opened Wrappers

  newtype byte = x: int | 0 <= x < 256

  /** CC_MD5_DIGEST_LENGTH. */
  const DigestLength: nat := 16

  /** What CC_MD5 writes into its sixteen-byte result buffer. */
  type Digest = s: seq<byte> | |s| == DigestLength witness seq(DigestLength, _ => 0)

  predicate IsLowerHexDigit(c: char) {
    '0' <= c <= '9' || 'a' <= c <= 'f'
  }

  predicate IsLowerHex(s: string) {
    forall i | 0 <= i < |s| :: IsLowerHexDigit(s[i])
  }

  /** The digit `%x` prints for a nibble. */
  function HexDigit(n: int): (c: char)
    requires 0 <= n < 16
    ensures IsLowerHexDigit(c)
  {
    if n < 10 then ('0' as int + n) as char else ('a' as int + n - 10) as char
  }

  /** The nibble a lowercase hex digit stands for. */
  function HexValue(c: char): (n: int)
    requires IsLowerHexDigit(c)
    ensures 0 <= n < 16
    ensures HexDigit(n) == c
  {
    if c <= '9' then c as int - '0' as int else c as int - 'a' as int + 10
  }

  lemma DigitValue(n: int)
    requires 0 <= n < 16
    ensures HexValue(HexDigit(n)) == n
  {
  }

  /** `%02x` of one byte: two digits, high nibble first, zero-padded. */
  function HexByte(b: byte): (r: string)
    ensures |r| == 2 && IsLowerHex(r)
    ensures HexValue(r[0]) * 16 + HexValue(r[1]) == b as int
  {
    DigitValue(b as int / 16);
    DigitValue(b as int % 16);
    [HexDigit(b as int / 16), HexDigit(b as int % 16)]
  }

  /** The text the hex loop has appended after the bytes `bs`. */
  function HexEncode(bs: seq<byte>): (r: string)
    ensures |r| == 2 * |bs|
    ensures IsLowerHex(r)
  {
    if bs == [] then "" else HexEncode(bs[..|bs| - 1]) + HexByte(bs[|bs| - 1])
  }

  /** Reads lowercase hex text back into bytes; fails on odd length or a non-digit. */
  function HexDecode(s: string): (r: Option<seq<byte>>)
    ensures r.Some? ==> 2 * |r.value| == |s|
  {
    if s == [] then Some([])
    else if |s| < 2 || !IsLowerHexDigit(s[|s| - 2]) || !IsLowerHexDigit(s[|s| - 1]) then None
    else
      match HexDecode(s[..|s| - 2])
      case None => None
      case Some(prefix) => Some(prefix + [(HexValue(s[|s| - 2]) * 16 + HexValue(s[|s| - 1])) as byte])
  }

  /** Byte `i` of the input is rendered at positions `2i` and `2i + 1`. */
  lemma {:induction false} HexEncodeAt(bs: seq<byte>, i: int)
    requires 0 <= i < |bs|
    ensures HexEncode(bs)[2 * i..2 * i + 2] == HexByte(bs[i])
  {
    var n := |bs| - 1;
    if i < n {
      HexEncodeAt(bs[..n], i);
      assert HexEncode(bs)[..2 * n] == HexEncode(bs[..n]);
      assert bs[..n][i] == bs[i];
    }
  }

  /** Decoding what the hex loop produced gives the digest back. */
  lemma {:induction false} DecodeEncode(bs: seq<byte>)
    ensures HexDecode(HexEncode(bs)) == Some(bs)
  {
    if bs != [] {
      var n := |bs| - 1;
      var s := HexEncode(bs);
      DecodeEncode(bs[..n]);
      assert s[..|s| - 2] == HexEncode(bs[..n]);
      assert s[|s| - 2..] == HexByte(bs[n]);
      assert s[|s| - 2] == HexByte(bs[n])[0];
      assert s[|s| - 1] == HexByte(bs[n])[1];
      assert bs[..n] + [bs[n]] == bs;
    }
  }

  /** An accepted non-empty text ends in two digits after an accepted prefix, and decodes to one byte more. */
  lemma HexDecodeLast(s: string)
    requires s != [] && HexDecode(s).Some?
    ensures |s| >= 2 && IsLowerHexDigit(s[|s| - 2]) && IsLowerHexDigit(s[|s| - 1])
    ensures HexDecode(s[..|s| - 2]).Some?
    ensures HexDecode(s).value
         == HexDecode(s[..|s| - 2]).value + [(HexValue(s[|s| - 2]) * 16 + HexValue(s[|s| - 1])) as byte]
  {
  }

  /** Two digit pairs that denote the same byte are the same pair. */
  lemma SameByteSameDigits(h: char, l: char, h': char, l': char)
    requires IsLowerHexDigit(h) && IsLowerHexDigit(l) && IsLowerHexDigit(h') && IsLowerHexDigit(l')
    requires (HexValue(h) * 16 + HexValue(l)) as byte == (HexValue(h') * 16 + HexValue(l')) as byte
    ensures h == h' && l == l'
  {
    assert HexValue(h) == HexValue(h') && HexValue(l) == HexValue(l');
  }

  /** Two accepted texts that decode to the same bytes are the same text. */
  lemma {:induction false} DecodeInjective(s: string, t: string)
    requires HexDecode(s).Some? && HexDecode(s) == HexDecode(t)
    ensures s == t
  {
    if s != [] {
      HexDecodeLast(s);
      HexDecodeLast(t);
      var n, m := |s| - 2, |t| - 2;
      var bs := HexDecode(s).value;
      assert bs[..|bs| - 1] == HexDecode(s[..n]).value == HexDecode(t[..m]).value;
      DecodeInjective(s[..n], t[..m]);
      SameByteSameDigits(s[n], s[n + 1], t[m], t[m + 1]);
      assert s == s[..n] + [s[n], s[n + 1]];
      assert t == t[..m] + [t[m], t[m + 1]];
    }
  }

  /** Every text the decoder accepts is the rendering of the bytes it returns. */
  lemma {:induction false} EncodeDecode(s: string)
    requires HexDecode(s).Some?
    ensures HexEncode(HexDecode(s).value) == s
  {
    DecodeEncode(HexDecode(s).value);
    DecodeInjective(HexEncode(HexDecode(s).value), s);
  }

  /** Distinct digests never share a key: the key determines the digest. */
  lemma EncodeInjective(a: seq<byte>, b: seq<byte>)
    requires HexEncode(a) == HexEncode(b)
    ensures a == b
  {
    DecodeEncode(a);
    DecodeEncode(b);
  }

  /**
   * `md5()`: CC_MD5 fills a sixteen-byte buffer, then each byte is appended
   * as `%02x`. The closing `String(format:)` is the identity here, because
   * lowercase hex text holds no `%`.
   */
  method Md5(s: string, ccMd5: string -> Digest) returns (hash: string)
    ensures hash == HexEncode(ccMd5(s))
    ensures |hash| == 2 * DigestLength && IsLowerHex(hash)
    ensures HexDecode(hash) == Some(ccMd5(s))
  {
    var digest := ccMd5(s);
    var result := new byte[DigestLength](i requires 0 <= i < DigestLength => digest[i]);
    var text := "";
    for i := 0 to DigestLength
      invariant text == HexEncode(result[..i])
    {
      assert result[..i + 1][..i] == result[..i];
      text := text + HexByte(result[i]);
    }
    assert result[..DigestLength] == result[..] == digest;
    hash := text;
    DecodeEncode(digest);
  }
}
