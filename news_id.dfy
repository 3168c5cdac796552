/**
 * The document id of a crawled article: the URL's UTF-8 bytes in base64
 * (section 4 of RFC 4648), cut to 16 characters, with every character
 * outside `[A-Za-z0-9]` removed.
 */
module NewsId {
  import opened Text

  type byte = x: int | 0 <= x < 256

  /** The UTF-8 encoding of one Unicode scalar value, as `Buffer.from` produces it. */
  function Utf8Char(c: char): (r: seq<byte>)
    ensures 1 <= |r| <= 4
    ensures (c as int < 0x80) <==> |r| == 1
    ensures c as int < 0x80 ==> r == [c as int]
  {
    var cp := c as int;
    if cp < 0x80 then [cp]
    else if cp < 0x800 then [0xC0 + cp / 64, 0x80 + cp % 64]
    else if cp < 0x10000 then [0xE0 + cp / 4096, 0x80 + (cp / 64) % 64, 0x80 + cp % 64]
    else [0xF0 + cp / 262144, 0x80 + (cp / 4096) % 64, 0x80 + (cp / 64) % 64, 0x80 + cp % 64]
  }

  function Utf8(s: string): (r: seq<byte>)
    ensures |r| >= |s|
  {
    if s == [] then [] else Utf8Char(s[0]) + Utf8(s[1..])
  }

  /** Encoding distributes over concatenation, so a URL prefix fixes a byte prefix. */
  lemma {:induction false} Utf8Append(a: string, b: string)
    ensures Utf8(a + b) == Utf8(a) + Utf8(b)
  {
    if a == [] {
      assert a + b == b;
    } else {
      assert (a + b)[0] == a[0];
      assert (a + b)[1..] == a[1..] + b;
      Utf8Append(a[1..], b);
    }
  }

  /** An ASCII string encodes to its own code points, one byte each. */
  lemma {:induction false} Utf8Ascii(s: string)
    requires forall i :: 0 <= i < |s| ==> s[i] as int < 0x80
    ensures |Utf8(s)| == |s|
    ensures forall i :: 0 <= i < |s| ==> Utf8(s)[i] == s[i] as int
  {
    if s != [] {
      Utf8Ascii(s[1..]);
    }
  }

  /** The base64 digit for a 6-bit value: `A-Z`, `a-z`, `0-9`, `+`, `/`. */
  function Sextet(v: int): (c: char)
    requires 0 <= v < 64
    ensures v < 62 <==> IsAsciiAlnum(c)
  {
    if v < 26 then ('A' as int + v) as char
    else if v < 52 then ('a' as int + v - 26) as char
    else if v < 62 then ('0' as int + v - 52) as char
    else if v == 62 then '+'
    else '/'
  }

  /** The value of a base64 digit, -1 for any other character (including the pad `=`). */
  function SextetValue(c: char): (v: int)
    ensures -1 <= v < 64
  {
    if 'A' <= c <= 'Z' then c as int - 'A' as int
    else if 'a' <= c <= 'z' then c as int - 'a' as int + 26
    else if '0' <= c <= '9' then c as int - '0' as int + 52
    else if c == '+' then 62
    else if c == '/' then 63
    else -1
  }

  lemma SextetRoundTrip(v: int)
    requires 0 <= v < 64
    ensures SextetValue(Sextet(v)) == v
  {
  }

  /** Four base64 digits for three bytes, most significant bits first. */
  function Quad(x: byte, y: byte, z: byte): (r: string)
    ensures |r| == 4
  {
    [Sextet(x / 4), Sextet((x % 4) * 16 + y / 16), Sextet((y % 16) * 4 + z / 64), Sextet(z % 64)]
  }

  /** Base64 with `=` padding: every 3 bytes become 4 digits; a short tail is padded with zero bits. */
  function Base64(b: seq<byte>): (r: string)
    ensures |r| == 4 * ((|b| + 2) / 3)
    decreases |b|
  {
    if |b| == 0 then []
    else if |b| == 1 then Quad(b[0], 0, 0)[..2] + "=="
    else if |b| == 2 then Quad(b[0], b[1], 0)[..3] + "="
    else Quad(b[0], b[1], b[2]) + Base64(b[3..])
  }

  /** The three bytes carried by the four digits `d`. */
  function FirstByte(d: string): int requires |d| >= 4 { SextetValue(d[0]) * 4 + SextetValue(d[1]) / 16 }
  function SecondByte(d: string): int requires |d| >= 4 { (SextetValue(d[1]) % 16) * 16 + SextetValue(d[2]) / 4 }
  function ThirdByte(d: string): int requires |d| >= 4 { (SextetValue(d[2]) % 4) * 64 + SextetValue(d[3]) }

  /** Decoding of a well-formed base64 text; the inverse of Base64. */
  function Unbase64(s: string): seq<int>
    decreases |s|
  {
    if |s| < 4 then []
    else if s[2] == '=' then [FirstByte(s)]
    else if s[3] == '=' then [FirstByte(s), SecondByte(s)]
    else [FirstByte(s), SecondByte(s), ThirdByte(s)] + Unbase64(s[4..])
  }

  /** Each byte is recovered from the two digits that carry its bits. */
  lemma SplitRoundTrip(x: byte, y: byte, z: byte)
    ensures x / 4 * 4 + ((x % 4) * 16 + y / 16) / 16 == x
    ensures ((x % 4) * 16 + y / 16) % 16 * 16 + ((y % 16) * 4 + z / 64) / 4 == y
    ensures ((y % 16) * 4 + z / 64) % 4 * 64 + z % 64 == z
  {
  }

  lemma GroupRoundTrip(x: byte, y: byte, z: byte)
    ensures var q := Quad(x, y, z);
      FirstByte(q) == x && SecondByte(q) == y && ThirdByte(q) == z && q[2] != '=' && q[3] != '='
  {
    SplitRoundTrip(x, y, z);
    SextetRoundTrip(x / 4);
    SextetRoundTrip((x % 4) * 16 + y / 16);
    SextetRoundTrip((y % 16) * 4 + z / 64);
    SextetRoundTrip(z % 64);
  }

  /** Base64 loses nothing: decoding gives back the bytes. */
  lemma {:induction false} Base64RoundTrip(b: seq<byte>)
    ensures Unbase64(Base64(b)) == b
    decreases |b|
  {
    if |b| == 1 {
      var q := Quad(b[0], 0, 0);
      GroupRoundTrip(b[0], 0, 0);
      var s := q[..2] + "==";
      assert FirstByte(s) == FirstByte(q);
    } else if |b| == 2 {
      var q := Quad(b[0], b[1], 0);
      GroupRoundTrip(b[0], b[1], 0);
      var s := q[..3] + "=";
      assert FirstByte(s) == FirstByte(q) && SecondByte(s) == SecondByte(q);
    } else if |b| >= 3 {
      var q := Quad(b[0], b[1], b[2]);
      GroupRoundTrip(b[0], b[1], b[2]);
      var s := q + Base64(b[3..]);
      assert s[..4] == q;
      assert FirstByte(s) == FirstByte(q) && SecondByte(s) == SecondByte(q) && ThirdByte(s) == ThirdByte(q);
      assert s[4..] == Base64(b[3..]);
      Base64RoundTrip(b[3..]);
      assert b == b[..3] + b[3..];
    }
  }

  /** Whole groups encode independently of what follows them. */
  lemma {:induction false} Base64Append(a: seq<byte>, c: seq<byte>)
    requires |a| % 3 == 0
    ensures Base64(a + c) == Base64(a) + Base64(c)
    decreases |a|
  {
    if |a| == 0 {
      assert a + c == c;
    } else {
      assert (a + c)[3..] == a[3..] + c;
      Base64Append(a[3..], c);
    }
  }

  /** The first 4k digits encode exactly the first 3k bytes. */
  lemma {:induction false} Base64Prefix(b: seq<byte>, k: nat)
    requires 3 * k <= |b|
    ensures Base64(b)[..4 * k] == Base64(b[..3 * k])
    decreases k
  {
    if k > 0 {
      var p := b[..3 * k];
      assert p[..3] == b[..3];
      assert p[3..] == b[3..][..3 * (k - 1)];
      Base64Prefix(b[3..], k - 1);
    }
  }

  /** Keeps the ASCII letters and digits, in order: `replace(/[^a-zA-Z0-9]/g, '')`. */
  function AlnumOnly(s: string): (r: string)
    ensures IsSubsequence(r, s)
    ensures forall i :: 0 <= i < |r| ==> IsAsciiAlnum(r[i])
    ensures |r| == CountWhere(s, IsAsciiAlnum)
    ensures forall c :: c in r <==> c in s && IsAsciiAlnum(c)
  {
    Filter(s, IsAsciiAlnum)
  }

  /** `generateId(url)` of both crawlers. */
  function GenerateId(url: string): (id: string)
    ensures |id| <= 16
    ensures forall i :: 0 <= i < |id| ==> IsAsciiAlnum(id[i])
  {
    AlnumOnly(Take(Base64(Utf8(url)), 16))
  }

  function Min(a: int, b: int): int { if a < b then a else b }

  /** The id is a function of the first 12 bytes of the URL's encoding alone. */
  lemma IdFromFirstTwelveBytes(url: string)
    ensures GenerateId(url) == AlnumOnly(Base64(Utf8(url)[..Min(12, |Utf8(url)|)]))
  {
    var b := Utf8(url);
    var e := Base64(b);
    if |b| >= 12 {
      assert |e| >= 16;
      assert Take(e, 16) == e[..16];
      Base64Prefix(b, 4);
    } else {
      assert |e| <= 16;
      assert Take(e, 16) == e;
      assert b[..|b|] == b;
    }
  }

  lemma SameFirstTwelveBytesSameId(u1: string, u2: string)
    requires |Utf8(u1)| >= 12 && |Utf8(u2)| >= 12
    requires Utf8(u1)[..12] == Utf8(u2)[..12]
    ensures GenerateId(u1) == GenerateId(u2)
  {
    var b1, b2 := Utf8(u1), Utf8(u2);
    assert Min(12, |b1|) == 12 && Min(12, |b2|) == 12;
    IdFromFirstTwelveBytes(u1);
    IdFromFirstTwelveBytes(u2);
  }

  /** URLs that share a prefix of at least 12 encoded bytes share their id. */
  lemma SharedPrefixSameId(prefix: string, u1: string, u2: string)
    requires |Utf8(prefix)| >= 12
    requires |u1| >= |prefix| && u1[..|prefix|] == prefix
    requires |u2| >= |prefix| && u2[..|prefix|] == prefix
    ensures GenerateId(u1) == GenerateId(u2)
  {
    var n := |prefix|;
    assert u1 == prefix + u1[n..];
    assert u2 == prefix + u2[n..];
    Utf8Append(prefix, u1[n..]);
    Utf8Append(prefix, u2[n..]);
    assert Utf8(u1)[..12] == Utf8(prefix)[..12];
    assert Utf8(u2)[..12] == Utf8(prefix)[..12];
    SameFirstTwelveBytesSameId(u1, u2);
  }

  const WwwPrefix := "https://www."

  /** Every `https://www.` URL gets one and the same id, whatever follows the prefix. */
  lemma WwwUrlsShareId(u1: string, u2: string)
    requires |u1| >= 12 && u1[..12] == WwwPrefix
    requires |u2| >= 12 && u2[..12] == WwwPrefix
    ensures GenerateId(u1) == GenerateId(u2)
  {
    SharedPrefixSameId(WwwPrefix, u1, u2);
  }
}
