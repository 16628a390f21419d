/** `HashUtils`: fixed-width lower-case hex encoding of byte arrays, and the two
    digest wrappers that feed it. The digests themselves (SHA-256 of FIPS 180-4,
    HMAC-SHA256 of RFC 2104, and the UTF-8 encoding of their inputs) are
    parameters: abstract functions that either yield a 32-byte digest or fail. */
module HashUtils {
  import opened Java

  /** A Java `byte`. */
  newtype int8 = x: int | -128 <= x < 128

  /** The 32 bytes a SHA-256 based digest produces. */
  type Digest = d: seq<int8> | |d| == 32 witness seq(32, _ => 0 as int8)

  /** `MessageDigest.getInstance("SHA-256").digest(data.getBytes(UTF_8))`; `None` when it throws. */
  type Sha256 = string -> Option<Digest>

  /** `Mac("HmacSHA256")` initialised with the UTF-8 bytes of `key` and applied to the
      UTF-8 bytes of `message`, called as `hmac(key, message)`; `None` when it throws. */
  type HmacSha256 = (string, string) -> Option<Digest>

  const HEX_DIGITS: string := "0123456789abcdef"

  /** A byte read as the unsigned value `%x` formats. */
  function Unsigned(b: int8): (u: nat)
    ensures u < 256 && (u - b as int) % 256 == 0
  {
    if b < 0 then b as int + 256 else b as int
  }

  /** `String.format("%02x", b)`. */
  function HexByte(b: int8): (s: string)
    ensures |s| == 2 && s[0] in HEX_DIGITS && s[1] in HEX_DIGITS
  {
    var u := Unsigned(b);
    [HEX_DIGITS[u / 16], HEX_DIGITS[u % 16]]
  }

  /** The string `toHex` builds: the bytes' two-digit codes, appended in order. */
  function Hex(bs: seq<int8>): string
  {
    if bs == [] then "" else Hex(bs[..|bs| - 1]) + HexByte(bs[|bs| - 1])
  }

  /** `toHex`: a `StringBuilder` filled by a loop over the array. */
  method ToHex(b: array<int8>) returns (s: string)
    ensures s == Hex(b[..])
    ensures |s| == 2 * b.Length
  {
    s := "";
    for i := 0 to b.Length
      invariant s == Hex(b[..i])
    {
      assert b[..i + 1][..i] == b[..i];
      s := s + HexByte(b[i]);
    }
    assert b[..b.Length] == b[..];
    HexLength(b[..]);
  }

  lemma {:induction false} HexLength(bs: seq<int8>)
    ensures |Hex(bs)| == 2 * |bs|
  {
    if bs != [] {
      HexLength(bs[..|bs| - 1]);
    }
  }

  /** Byte `i` is rendered at positions `2i` and `2i + 1`. */
  lemma {:induction false} HexAt(bs: seq<int8>, i: nat)
    requires i < |bs|
    ensures |Hex(bs)| == 2 * |bs|
    ensures Hex(bs)[2 * i..2 * i + 2] == HexByte(bs[i])
  {
    var n := |bs|;
    var front, last := Hex(bs[..n - 1]), HexByte(bs[n - 1]);
    assert Hex(bs) == front + last;
    HexLength(bs[..n - 1]);
    HexLength(bs);
    if i < n - 1 {
      HexAt(bs[..n - 1], i);
      assert (front + last)[2 * i..2 * i + 2] == front[2 * i..2 * i + 2];
    } else {
      assert (front + last)[2 * i..2 * i + 2] == last;
    }
  }

  /** Every character of the output is one of 0-9a-f. */
  lemma {:induction false} HexIsLowerCaseHex(bs: seq<int8>)
    ensures forall k :: 0 <= k < |Hex(bs)| ==> Hex(bs)[k] in HEX_DIGITS
  {
    if bs != [] {
      HexIsLowerCaseHex(bs[..|bs| - 1]);
    }
  }

  /** The value of one of the sixteen digits. */
  function HexValue(c: char): (v: nat)
    requires c in HEX_DIGITS
    ensures v < 16 && HEX_DIGITS[v] == c
  {
    if '0' <= c <= '9' then c as int - '0' as int else c as int - 'a' as int + 10
  }

  predicate IsHex(s: string)
  {
    |s| % 2 == 0 && forall k :: 0 <= k < |s| ==> s[k] in HEX_DIGITS
  }

  /** The signed byte two hex digits denote. */
  function PairByte(hi: char, lo: char): int8
    requires hi in HEX_DIGITS && lo in HEX_DIGITS
  {
    var u := 16 * HexValue(hi) + HexValue(lo);
    if u >= 128 then (u - 256) as int8 else u as int8
  }

  /** Reads a hex string back into signed bytes. */
  function FromHex(s: string): (bs: seq<int8>)
    requires IsHex(s)
    ensures |bs| == |s| / 2
  {
    if s == [] then [] else FromHex(s[..|s| - 2]) + [PairByte(s[|s| - 2], s[|s| - 1])]
  }

  lemma PairByteOfHexByte(b: int8)
    ensures PairByte(HexByte(b)[0], HexByte(b)[1]) == b
  {
    var u := Unsigned(b);
    assert HexValue(HEX_DIGITS[u / 16]) == u / 16;
    assert HexValue(HEX_DIGITS[u % 16]) == u % 16;
  }

  lemma FromHexSnoc(front: string, last: string)
    requires IsHex(front) && |last| == 2 && last[0] in HEX_DIGITS && last[1] in HEX_DIGITS
    ensures IsHex(front + last)
    ensures FromHex(front + last) == FromHex(front) + [PairByte(last[0], last[1])]
  {
    var s := front + last;
    assert s[..|s| - 2] == front;
  }

  /** Decoding undoes the encoding. */
  lemma {:induction false} HexRoundTrip(bs: seq<int8>)
    ensures IsHex(Hex(bs)) && FromHex(Hex(bs)) == bs
  {
    if bs != [] {
      var n := |bs|;
      var front, last := Hex(bs[..n - 1]), HexByte(bs[n - 1]);
      HexRoundTrip(bs[..n - 1]);
      FromHexSnoc(front, last);
      PairByteOfHexByte(bs[n - 1]);
      assert bs == bs[..n - 1] + [bs[n - 1]];
    }
  }

  /** The encoding is fixed-width, hence injective. */
  lemma HexInjective(a: seq<int8>, b: seq<int8>)
    requires Hex(a) == Hex(b)
    ensures a == b
  {
    HexRoundTrip(a);
    HexRoundTrip(b);
  }

  /** `sha256Hex(data)`: the hex digest, or the provider's failure rethrown. */
  function Sha256Hex(sha256: Sha256, data: string): (r: Checked<string>)
    ensures r.Throws? <==> sha256(data).None?
    ensures r.Throws? ==> r.exception == Runtime("SHA-256 failed")
    ensures r.Returns? ==> |r.value| == 64 && IsHex(r.value) && FromHex(r.value) == sha256(data).value
  {
    match sha256(data)
    case None => Throws(Runtime("SHA-256 failed"))
    case Some(d) => HexRoundTrip(d); Returns(Hex(d))
  }

  /** `hmacSha256Hex(data, key)`: the hex MAC of `data` under `key`, or the failure rethrown. */
  function HmacSha256Hex(hmac: HmacSha256, data: string, key: string): (r: Checked<string>)
    ensures r.Throws? <==> hmac(key, data).None?
    ensures r.Throws? ==> r.exception == Runtime("HMAC calc failed")
    ensures r.Returns? ==> |r.value| == 64 && IsHex(r.value) && FromHex(r.value) == hmac(key, data).value
  {
    match hmac(key, data)
    case None => Throws(Runtime("HMAC calc failed"))
    case Some(d) => HexRoundTrip(d); Returns(Hex(d))
  }
}
