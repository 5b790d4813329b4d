/**
 * The pre-shared key of SoftapController.cpp's `generatePsk`: a 32-byte key
 * derived from the passphrase, salted with the SSID, printed as 64 lower-case
 * hexadecimal digits with `%02x`.
 */
module Psk {

  newtype byte = x: int | 0 <= x < 256

  /** SHA256_DIGEST_LENGTH, the number of key bytes requested. */
  const DigestLength := 32

  /** PBKDF2 iteration count the key derivation is called with. */
  const Iterations := 4096

  type Digest = s: seq<byte> | |s| == DigestLength witness seq(DigestLength, _ => 0)

  /**
   * PKCS5_PBKDF2_HMAC_SHA1(passphrase, ssid, Iterations, DigestLength): the
   * key derivation of PKCS #5 v2.0 (RFC 2898 section 5.2) with HMAC-SHA1. It is
   * not modelled; callers pass it in, and the model only relies on its output
   * being DigestLength bytes.
   */
  type Kdf = (string, string) -> Digest

  predicate IsLowerHex(c: char) {
    '0' <= c <= '9' || 'a' <= c <= 'f'
  }

  /** The `%x` digit of a nibble: '0' to '9', then 'a' to 'f'. */
  function HexDigit(n: nat): (c: char)
    requires n < 16
    ensures IsLowerHex(c)
  {
    if n < 10 then ('0' as int + n) as char else ('a' as int + n - 10) as char
  }

  /** `%02x` of every byte in turn: high nibble first, then low nibble; two lower-case hex digits per byte. */
  function HexEncode(bs: seq<byte>): (s: seq<char>)
    ensures |s| == 2 * |bs|
    ensures forall i :: 0 <= i < |s| ==> IsLowerHex(s[i])
  {
    if bs == [] then [] else [HexDigit(bs[0] as nat / 16), HexDigit(bs[0] as nat % 16)] + HexEncode(bs[1..])
  }

  function HexValue(c: char): (n: nat)
    requires IsLowerHex(c)
    ensures n < 16
  {
    if c <= '9' then (c - '0') as nat else (c - 'a') as nat + 10
  }

  /** Reads pairs of hex digits back into bytes: the inverse of HexEncode. */
  function HexDecode(s: seq<char>): seq<byte>
    requires |s| % 2 == 0
    requires forall i :: 0 <= i < |s| ==> IsLowerHex(s[i])
  {
    if s == [] then [] else [(HexValue(s[0]) * 16 + HexValue(s[1])) as byte] + HexDecode(s[2..])
  }

  /** Character 2j is the high and character 2j+1 the low hex digit of byte j. */
  lemma {:induction false} HexEncodeAt(bs: seq<byte>, j: nat)
    requires j < |bs|
    ensures |HexEncode(bs)| == 2 * |bs|
    ensures HexEncode(bs)[2 * j] == HexDigit(bs[j] as nat / 16)
    ensures HexEncode(bs)[2 * j + 1] == HexDigit(bs[j] as nat % 16)
  {
    if j > 0 {
      HexEncodeAt(bs[1..], j - 1);
    } else if |bs| > 1 {
      HexEncodeAt(bs[1..], 0);
    }
  }

  /** The printed key decodes back to the derived key: no information is lost in printing. */
  lemma {:induction false} HexRoundTrip(bs: seq<byte>)
    ensures |HexEncode(bs)| % 2 == 0
    ensures forall i :: 0 <= i < |HexEncode(bs)| ==> IsLowerHex(HexEncode(bs)[i])
    ensures HexDecode(HexEncode(bs)) == bs
  {
    if bs != [] {
      HexRoundTrip(bs[1..]);
      var s := HexEncode(bs);
      assert s[2..] == HexEncode(bs[1..]);
      assert HexValue(HexDigit(bs[0] as nat / 16)) == bs[0] as nat / 16;
      assert HexValue(HexDigit(bs[0] as nat % 16)) == bs[0] as nat % 16;
    }
  }

  lemma {:induction false} HexEncodeSnoc(bs: seq<byte>, b: byte)
    ensures HexEncode(bs + [b]) == HexEncode(bs) + [HexDigit(b as nat / 16), HexDigit(b as nat % 16)]
  {
    if bs == [] {
      assert bs + [b] == [b];
    } else {
      assert (bs + [b])[1..] == bs[1..] + [b];
      HexEncodeSnoc(bs[1..], b);
    }
  }

  /** The `wpa_psk` value both security blocks of SoftapController.cpp carry. */
  function PskString(kdf: Kdf, ssid: string, passphrase: string): (s: string)
    ensures |s| == 2 * DigestLength
    ensures forall i :: 0 <= i < |s| ==> IsLowerHex(s[i])
  {
    HexEncode(kdf(passphrase, ssid))
  }

  /**
   * `generatePsk`: derive the key, then print byte j into characters 2j and
   * 2j+1 of the caller's buffer; each `sprintf` also writes a NUL after its two
   * digits, so the buffer ends NUL-terminated.
   */
  method GeneratePsk(kdf: Kdf, ssid: string, passphrase: string, pskStr: array<char>)
    requires pskStr.Length == 2 * DigestLength + 1
    modifies pskStr
    ensures pskStr[..2 * DigestLength] == PskString(kdf, ssid, passphrase)
    ensures pskStr[2 * DigestLength] == '\0'
  {
    var psk := kdf(passphrase, ssid);
    for j := 0 to DigestLength
      invariant pskStr[..2 * j] == HexEncode(psk[..j])
      invariant 0 < j ==> pskStr[2 * j] == '\0'
    {
      HexEncodeSnoc(psk[..j], psk[j]);
      assert psk[..j + 1] == psk[..j] + [psk[j]];
      pskStr[2 * j], pskStr[2 * j + 1], pskStr[2 * j + 2] := HexDigit(psk[j] as nat / 16), HexDigit(psk[j] as nat % 16), '\0';
    }
    assert psk[..DigestLength] == psk;
  }
}
