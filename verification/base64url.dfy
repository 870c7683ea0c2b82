/**
 * The Base64urlUInt encoding of section 2 of RFC 7518 for a positive
 * integer: its minimal big-endian octet string, encoded with the URL- and
 * filename-safe alphabet of section 5 of RFC 4648, trailing '=' removed.
 * Built as Python builds it: `n.to_bytes((n.bit_length() + 7) // 8, 'big')`,
 * `base64.urlsafe_b64encode`, then `.rstrip("=")`. For zero this gives the
 * empty text, where the RFC asks for "AA" (a single zero octet).
 */
module Base64Url {
  import opened Wrappers

  type byte = b: int | 0 <= b < 256

  function Pow2(k: nat): (r: nat)
    ensures r >= 1
  {
    if k == 0 then 1 else 2 * Pow2(k - 1)
  }

  function Pow256(k: nat): (r: nat)
    ensures r >= 1
  {
    if k == 0 then 1 else 256 * Pow256(k - 1)
  }

  /** `int.bit_length()`: the number of binary digits, 0 for 0. */
  function BitLength(n: nat): nat {
    if n == 0 then 0 else 1 + BitLength(n / 2)
  }

  /** `(n.bit_length() + 7) // 8`: the byte count the source asks for. */
  function ByteLength(n: nat): nat {
    (BitLength(n) + 7) / 8
  }

  /** `n.to_bytes(len, 'big')`, for an `n` that fits in `len` bytes. */
  function ToBigEndian(n: nat, len: nat): (r: seq<byte>)
    ensures |r| == len
  {
    if len == 0 then [] else ToBigEndian(n / 256, len - 1) + [n % 256]
  }

  /** `int.from_bytes(bs, 'big')`. */
  function FromBigEndian(bs: seq<byte>): nat {
    if bs == [] then 0 else FromBigEndian(bs[..|bs| - 1]) * 256 + bs[|bs| - 1]
  }

  /** The minimal big-endian octets of `n`. */
  function MinimalBytes(n: nat): (r: seq<byte>)
    ensures |r| == ByteLength(n)
  {
    ToBigEndian(n, ByteLength(n))
  }

  lemma {:induction false} BitLengthBounds(n: nat)
    ensures n < Pow2(BitLength(n))
    ensures n > 0 ==> Pow2(BitLength(n) - 1) <= n
  {
    if n > 0 {
      BitLengthBounds(n / 2);
    }
  }

  lemma {:induction false} Pow2Monotone(a: nat, b: nat)
    requires a <= b
    ensures Pow2(a) <= Pow2(b)
    decreases b
  {
    if a < b {
      Pow2Monotone(a, b - 1);
    }
  }

  lemma {:induction false} Pow256IsPow2(k: nat)
    ensures Pow256(k) == Pow2(8 * k)
  {
    if k > 0 {
      Pow256IsPow2(k - 1);
      assert Pow2(8 * k) == 256 * Pow2(8 * (k - 1)) by {
        var m := 8 * (k - 1);
        assert Pow2(m + 8) == 2 * Pow2(m + 7) == 4 * Pow2(m + 6) == 8 * Pow2(m + 5) == 16 * Pow2(m + 4);
        assert Pow2(m + 4) == 2 * Pow2(m + 3) == 4 * Pow2(m + 2) == 8 * Pow2(m + 1) == 16 * Pow2(m);
      }
    }
  }

  /** `n` fits in its byte count, and needs all of it: it is at least 256 to the power of one byte fewer. */
  lemma ByteLengthBounds(n: nat)
    ensures n < Pow256(ByteLength(n))
    ensures n > 0 ==> ByteLength(n) >= 1 && Pow256(ByteLength(n) - 1) <= n
  {
    var bl := BitLength(n);
    var len := ByteLength(n);
    BitLengthBounds(n);
    Pow256IsPow2(len);
    Pow2Monotone(bl, 8 * len);
    if n > 0 {
      Pow256IsPow2(len - 1);
      Pow2Monotone(8 * (len - 1), bl - 1);
    }
  }

  lemma DropLowOctet(n: nat, len: nat)
    requires 0 < len && n < Pow256(len)
    ensures n / 256 < Pow256(len - 1) && n == n / 256 * 256 + n % 256
  {
    var p := Pow256(len - 1);
    assert Pow256(len) == 256 * p;
  }

  /** Reading big-endian octets back gives the integer they were written from. */
  lemma {:induction false} FromToBigEndian(n: nat, len: nat)
    requires n < Pow256(len)
    ensures FromBigEndian(ToBigEndian(n, len)) == n
  {
    if len > 0 {
      var bs := ToBigEndian(n, len);
      assert bs[..len - 1] == ToBigEndian(n / 256, len - 1);
      DropLowOctet(n, len);
      FromToBigEndian(n / 256, len - 1);
    }
  }

  /** A leading zero octet adds nothing to the value. */
  lemma {:induction false} LeadingZero(t: seq<byte>)
    ensures FromBigEndian([0] + t) == FromBigEndian(t)
    decreases |t|
  {
    if t != [] {
      assert ([0] + t)[..|t|] == [0] + t[..|t| - 1];
      LeadingZero(t[..|t| - 1]);
    }
  }

  lemma {:induction false} FromBigEndianBound(bs: seq<byte>)
    ensures FromBigEndian(bs) < Pow256(|bs|)
    decreases |bs|
  {
    if bs != [] {
      FromBigEndianBound(bs[..|bs| - 1]);
    }
  }

  /** The octet string has exactly `(bit_length + 7) // 8` octets and reads back as `n`; 0 gives no octets. */
  lemma MinimalBytesValue(n: nat)
    ensures |MinimalBytes(n)| == (BitLength(n) + 7) / 8
    ensures FromBigEndian(MinimalBytes(n)) == n
    ensures n == 0 <==> MinimalBytes(n) == []
  {
    ByteLengthBounds(n);
    FromToBigEndian(n, ByteLength(n));
  }

  /** For `n > 0` the first octet is not zero: the encoding is minimal. */
  lemma MinimalBytesNoLeadingZero(n: nat)
    requires n > 0
    ensures |MinimalBytes(n)| >= 1 && MinimalBytes(n)[0] != 0
  {
    var bs := MinimalBytes(n);
    MinimalBytesValue(n);
    ByteLengthBounds(n);
    assert bs == [bs[0]] + bs[1..];
    FromBigEndianBound(bs[1..]);
    if bs[0] == 0 {
      LeadingZero(bs[1..]);
      assert false;
    }
  }

  /** The digit for a 6-bit value: 'A'-'Z', 'a'-'z', '0'-'9', then '-' and '_'. */
  function DigitChar(v: int): (c: char)
    requires 0 <= v < 64
    ensures c != '='
  {
    if v < 26 then ('A' as int + v) as char
    else if v < 52 then ('a' as int + v - 26) as char
    else if v < 62 then ('0' as int + v - 52) as char
    else if v == 62 then '-'
    else '_'
  }

  /** The 6-bit value of a digit of the URL-safe alphabet, None for any other character, '=' included. */
  function DigitValue(c: char): (r: Option<int>)
    ensures r.Some? ==> 0 <= r.value < 64 && DigitChar(r.value) == c
  {
    if 'A' <= c <= 'Z' then Some(c as int - 'A' as int)
    else if 'a' <= c <= 'z' then Some(c as int - 'a' as int + 26)
    else if '0' <= c <= '9' then Some(c as int - '0' as int + 52)
    else if c == '-' then Some(62)
    else if c == '_' then Some(63)
    else None
  }

  lemma DigitRoundTrip(v: int)
    requires 0 <= v < 64
    ensures DigitValue(DigitChar(v)) == Some(v)
  {
  }

  predicate IsSextets(vs: seq<int>) {
    forall k :: 0 <= k < |vs| ==> 0 <= vs[k] < 64
  }

  /** `str.rstrip("=")`: every trailing '=' removed. */
  function StripPadding(s: string): (r: string)
    ensures |r| <= |s| && r == s[..|r|]
    ensures r == [] || r[|r| - 1] != '='
    ensures forall k :: |r| <= k < |s| ==> s[k] == '='
  {
    if s == [] || s[|s| - 1] != '=' then s else StripPadding(s[..|s| - 1])
  }

  /** The integer as a JWK member value. */
  function Base64UrlUInt(n: nat): string {
    StripPadding(Encode(MinimalBytes(n)))
  }

  /**
   * The 6-bit values the encoding writes, padding aside: four for each full
   * group of three octets, then two or three for a final group of one or two.
   */
  function Sextets(bs: seq<byte>): (r: seq<int>)
    ensures |r| == 4 * (|bs| / 3) + (if |bs| % 3 == 0 then 0 else |bs| % 3 + 1)
    ensures IsSextets(r)
    decreases |bs|
  {
    if |bs| == 0 then []
    else if |bs| == 1 then [bs[0] / 4, (bs[0] % 4) * 16]
    else if |bs| == 2 then [bs[0] / 4, (bs[0] % 4) * 16 + bs[1] / 16, (bs[1] % 16) * 4]
    else [bs[0] / 4, (bs[0] % 4) * 16 + bs[1] / 16, (bs[1] % 16) * 4 + bs[2] / 64, bs[2] % 64] + Sextets(bs[3..])
  }

  /** Each value written as its digit. */
  function ToDigits(vs: seq<int>): (r: string)
    requires IsSextets(vs)
    ensures |r| == |vs| && forall k :: 0 <= k < |vs| ==> r[k] == DigitChar(vs[k])
  {
    seq(|vs|, k requires 0 <= k < |vs| => DigitChar(vs[k]))
  }

  /** The digits of the encoding, without padding. */
  function Digits(bs: seq<byte>): (r: string)
    ensures forall k :: 0 <= k < |r| ==> r[k] != '='
  {
    ToDigits(Sextets(bs))
  }

  /** The padding a final group of `len % 3` octets gets. */
  function Padding(len: nat): string {
    if len % 3 == 1 then "==" else if len % 3 == 2 then "=" else ""
  }

  /**
   * `urlsafe_b64encode`: the digits, then '=' up to a multiple of four
   * characters, as section 4 of RFC 4648 lays out the padded encoding.
   */
  function Encode(bs: seq<byte>): (r: string)
    ensures |r| % 4 == 0
  {
    PaddedLength(bs);
    Digits(bs) + Padding(|bs|)
  }

  /** The digits and their padding fill whole groups of four characters. */
  lemma PaddedLength(bs: seq<byte>)
    ensures (|Digits(bs)| + |Padding(|bs|)|) % 4 == 0
  {
    var q, t := |bs| / 3, |bs| % 3;
    assert |Digits(bs)| == 4 * q + (if t == 0 then 0 else t + 1);
    assert |Digits(bs)| + |Padding(|bs|)| == 4 * (q + (if t == 0 then 0 else 1));
  }

  /** Stripping removes exactly a trailing run of '=' after a text that does not end in '='. */
  lemma {:induction false} StripSuffix(s: string, m: nat)
    requires 0 < m <= |s| && s[m - 1] != '=' && forall k :: m <= k < |s| ==> s[k] == '='
    ensures StripPadding(s) == s[..m]
    decreases |s|
  {
    if |s| > m {
      StripSuffix(s[..|s| - 1], m);
    }
  }

  /** Stripping the padding leaves the digits alone, so the JWK value holds no '='. */
  lemma StripEncode(bs: seq<byte>)
    ensures StripPadding(Encode(bs)) == Digits(bs)
  {
    var d := Digits(bs);
    var e := Encode(bs);
    assert e == d + Padding(|bs|);
    if d != [] {
      assert e[..|d|] == d;
      StripSuffix(e, |d|);
    }
  }

  /** Reads a text as 6-bit values; None when any character, '=' included, is outside the alphabet. */
  function Values(s: string): (r: Option<seq<int>>)
    ensures r.Some? ==> |r.value| == |s| && IsSextets(r.value)
  {
    if s == [] then Some([])
    else match DigitValue(s[0])
      case None => None
      case Some(v) =>
        match Values(s[1..])
        case None => None
        case Some(vs) => Some([v] + vs)
  }

  lemma {:induction false} ValuesOfDigits(vs: seq<int>)
    requires IsSextets(vs)
    ensures Values(ToDigits(vs)) == Some(vs)
  {
    if vs != [] {
      var s := ToDigits(vs);
      assert s[1..] == ToDigits(vs[1..]);
      ValuesOfDigits(vs[1..]);
      DigitRoundTrip(vs[0]);
      assert vs == [vs[0]] + vs[1..];
    }
  }

  /** The octet held by the first value and the high two bits of the second. */
  function FirstOctet(v0: int, v1: int): byte
    requires 0 <= v0 < 64 && 0 <= v1 < 64
  {
    v0 * 4 + v1 / 16
  }

  /** The octet held by the low four bits of the second value and the high four of the third. */
  function SecondOctet(v1: int, v2: int): byte
    requires 0 <= v1 < 64 && 0 <= v2 < 64
  {
    (v1 % 16) * 16 + v2 / 4
  }

  /** The octet held by the low two bits of the third value and the fourth value. */
  function ThirdOctet(v2: int, v3: int): byte
    requires 0 <= v2 < 64 && 0 <= v3 < 64
  {
    (v2 % 4) * 64 + v3
  }

  /**
   * Regroups 6-bit values into octets, strictly: a final group of a single
   * value is refused, and the bits a final group of two or three values
   * leaves over must be zero.
   */
  function Regroup(vs: seq<int>): Option<seq<byte>>
    requires IsSextets(vs)
    decreases |vs|
  {
    if |vs| == 0 then Some([])
    else if |vs| == 1 then None
    else if |vs| == 2 then
      if vs[1] % 16 == 0 then Some([FirstOctet(vs[0], vs[1])]) else None
    else if |vs| == 3 then
      if vs[2] % 4 == 0 then Some([FirstOctet(vs[0], vs[1]), SecondOctet(vs[1], vs[2])]) else None
    else
      match Regroup(vs[4..])
      case None => None
      case Some(rest) => Some([FirstOctet(vs[0], vs[1]), SecondOctet(vs[1], vs[2]), ThirdOctet(vs[2], vs[3])] + rest)
  }

  /** The values of a full group give its three octets back. */
  lemma RegroupGroup(a: byte, b: byte, c: byte)
    ensures var v1, v2 := (a % 4) * 16 + b / 16, (b % 16) * 4 + c / 64;
      FirstOctet(a / 4, v1) == a && SecondOctet(v1, v2) == b && ThirdOctet(v2, c % 64) == c
  {
    var v1, v2 := (a % 4) * 16 + b / 16, (b % 16) * 4 + c / 64;
    assert v1 / 16 == a % 4 && v1 % 16 == b / 16;
    assert v2 / 4 == b % 16 && v2 % 4 == c / 64;
  }

  /** Regrouping inverts the split into values. */
  lemma {:induction false} RegroupSextets(bs: seq<byte>)
    ensures Regroup(Sextets(bs)) == Some(bs)
    decreases |bs|
  {
    var vs := Sextets(bs);
    if |bs| == 1 {
      assert vs[1] % 16 == 0;
      assert bs == [FirstOctet(vs[0], vs[1])];
    } else if |bs| == 2 {
      assert vs[1] / 16 == bs[0] % 4 && vs[1] % 16 == bs[1] / 16;
      assert vs[2] % 4 == 0 && vs[2] / 4 == bs[1] % 16;
      assert bs == [FirstOctet(vs[0], vs[1]), SecondOctet(vs[1], vs[2])];
    } else if |bs| >= 3 {
      RegroupSextets(bs[3..]);
      RegroupGroup(bs[0], bs[1], bs[2]);
      assert vs[4..] == Sextets(bs[3..]);
      assert bs == [bs[0], bs[1], bs[2]] + bs[3..];
    }
  }

  /**
   * The reading a verifier applies to a JWK member, unpadded as in
   * Appendix C of RFC 7515: digits to values, values to octets, octets
   * read big-endian.
   */
  function DecodeUInt(s: string): Option<nat> {
    match Values(s)
    case None => None
    case Some(vs) =>
      match Regroup(vs)
      case None => None
      case Some(bs) => Some(FromBigEndian(bs))
  }

  /** Reading the digits of some octets gives back the value of those octets. */
  lemma DecodeDigits(bs: seq<byte>)
    ensures DecodeUInt(Digits(bs)) == Some(FromBigEndian(bs))
  {
    ValuesOfDigits(Sextets(bs));
    RegroupSextets(bs);
  }

  /** The JWK value holds no '=' and reads back as the integer it encodes. */
  lemma Base64UrlUIntRoundTrip(n: nat)
    ensures '=' !in Base64UrlUInt(n)
    ensures DecodeUInt(Base64UrlUInt(n)) == Some(n)
  {
    var bs := MinimalBytes(n);
    StripEncode(bs);
    DecodeDigits(bs);
    MinimalBytesValue(n);
  }

  lemma ExponentBitLength()
    ensures BitLength(65537) == 17
  {
    assert BitLength(1) == 1;
    assert BitLength(2) == 2 && BitLength(4) == 3 && BitLength(8) == 4 && BitLength(16) == 5;
    assert BitLength(32) == 6 && BitLength(64) == 7 && BitLength(128) == 8 && BitLength(256) == 9;
    assert BitLength(512) == 10 && BitLength(1024) == 11 && BitLength(2048) == 12 && BitLength(4096) == 13;
    assert BitLength(8192) == 14 && BitLength(16384) == 15 && BitLength(32768) == 16;
  }

  /** The public exponent 65537 is the three octets 01 00 01. */
  lemma ExponentOctets()
    ensures MinimalBytes(65537) == [1, 0, 1]
  {
    ExponentBitLength();
    assert ByteLength(65537) == 3;
    assert ToBigEndian(1, 1) == [1];
    assert ToBigEndian(256, 2) == [1, 0];
  }

  lemma ExponentSextets()
    ensures Sextets([1, 0, 1]) == [0, 16, 0, 1]
  {
    var bs: seq<byte> := [1, 0, 1];
    assert bs[3..] == [];
  }

  /** The three octets 01 00 01 encode as "AQAB". */
  lemma ExponentEncoding()
    ensures Base64UrlUInt(65537) == "AQAB"
  {
    ExponentOctets();
    ExponentSextets();
    StripEncode([1, 0, 1]);
    assert ToDigits([0, 16, 0, 1]) == "AQAB" by {
      assert DigitChar(0) == 'A' && DigitChar(16) == 'Q' && DigitChar(1) == 'B';
    }
  }

  /** Zero has no octets, so its value is the empty text, where RFC 7518 asks for "AA"; a reader takes it as zero. */
  lemma ZeroEncodesEmpty()
    ensures MinimalBytes(0) == [] && Base64UrlUInt(0) == ""
    ensures DecodeUInt("") == Some(0)
  {
    assert ByteLength(0) == 0;
    assert Encode([]) == "";
  }

  lemma ZeroOctetDigits()
    ensures Digits([0]) == "AA"
  {
    var z: seq<byte> := [0];
    assert Sextets(z) == [0, 0];
    assert DigitChar(0) == 'A';
  }

  /** "AA", the digits of a single zero octet, also reads as zero. */
  lemma ZeroOctetReadsZero(s: string)
    requires s == "AA"
    ensures DecodeUInt(s) == Some(0)
  {
    var z: seq<byte> := [0];
    ZeroOctetDigits();
    DecodeDigits(z);
    assert FromBigEndian(z) == 0 by {
      assert z[..0] == [];
    }
  }
}
