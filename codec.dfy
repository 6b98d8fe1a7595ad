/** The attribute codec of the sync script: the password hash that Active
    Directory keeps as hex text in `division` becomes an OpenLDAP `{SHA}`
    userPassword value (sha1hex2ldap), and a Windows FILETIME becomes Unix
    seconds (ft2ut). */
module Codec {
  import opened Wrappers
  import opened PyText

  type byte = b: int | 0 <= b < 256

  // ---------------------------------------------------------------------
  // Base16, section 8 of RFC 4648 (Python 2's str.decode('hex'))
  // ---------------------------------------------------------------------

  /** The value of one hex digit; either case is accepted. */
  function HexValue(c: char): (r: Option<nat>)
    ensures r.Some? ==> r.value < 16
  {
    if '0' <= c <= '9' then Some(c as int - '0' as int)
    else if 'a' <= c <= 'f' then Some(c as int - 'a' as int + 10)
    else if 'A' <= c <= 'F' then Some(c as int - 'A' as int + 10)
    else None
  }

  function HexDigitChar(d: nat): (c: char)
    requires d < 16
    ensures HexValue(c) == Some(d)
  {
    if d < 10 then ('0' as int + d) as char else ('a' as int + d - 10) as char
  }

  /** str.decode('hex'): each pair of digits is one byte, high nibble first.
      None where Python 2 raises TypeError: an odd length or a character
      that is not a hex digit. */
  function HexDecode(s: string): (r: Option<seq<byte>>)
    ensures r.Some? ==> 2 * |r.value| == |s|
    decreases |s|
  {
    if |s| % 2 == 1 then None
    else if |s| == 0 then Some([])
    else
      match (HexValue(s[0]), HexValue(s[1]), HexDecode(s[2..]))
      case (Some(hi), Some(lo), Some(rest)) => Some([hi * 16 + lo] + rest)
      case _ => None
  }

  /** decode('hex') fails exactly on an odd length or a character that is
      not a hex digit. */
  lemma {:induction false} HexDecodeDomain(s: string)
    ensures HexDecode(s).Some? <==> |s| % 2 == 0 && forall i :: 0 <= i < |s| ==> HexValue(s[i]).Some?
    decreases |s|
  {
    if |s| % 2 == 0 && |s| > 0 {
      HexDecodeDomain(s[2..]);
      assert forall i :: 2 <= i < |s| ==> s[i] == s[2..][i - 2];
    }
  }

  /** Lower-case hex text of a byte string: one text that decodes to it. */
  function HexEncode(b: seq<byte>): (s: string)
    ensures |s| == 2 * |b|
    decreases |b|
  {
    if |b| == 0 then "" else [HexDigitChar(b[0] / 16), HexDigitChar(b[0] % 16)] + HexEncode(b[1..])
  }

  lemma {:induction false} HexRoundTrip(b: seq<byte>)
    ensures HexDecode(HexEncode(b)) == Some(b)
    decreases |b|
  {
    if |b| > 0 {
      var s := HexEncode(b);
      HexRoundTrip(b[1..]);
      assert s[2..] == HexEncode(b[1..]);
      assert [b[0]] + b[1..] == b;
    }
  }

  // ---------------------------------------------------------------------
  // Base64, section 4 of RFC 4648
  // ---------------------------------------------------------------------

  /** The character of the Base64 alphabet for a 6-bit value. */
  function B64Char(i: nat): char
    requires i < 64
  {
    if i < 26 then ('A' as int + i) as char
    else if i < 52 then ('a' as int + i - 26) as char
    else if i < 62 then ('0' as int + i - 52) as char
    else if i == 62 then '+'
    else '/'
  }

  /** The 6-bit value of a character of the Base64 alphabet. */
  function B64Value(c: char): (r: Option<nat>)
    ensures r.Some? ==> r.value < 64
  {
    if 'A' <= c <= 'Z' then Some(c as int - 'A' as int)
    else if 'a' <= c <= 'z' then Some(c as int - 'a' as int + 26)
    else if '0' <= c <= '9' then Some(c as int - '0' as int + 52)
    else if c == '+' then Some(62)
    else if c == '/' then Some(63)
    else None
  }

  /** A character Base64 output may contain: the alphabet or the pad. */
  predicate IsB64Text(c: char) {
    B64Value(c).Some? || c == '='
  }

  /** Three bytes as four characters of the alphabet. */
  function EncodeGroup(x: byte, y: byte, z: byte): (g: string)
    ensures |g| == 4 && forall i :: 0 <= i < 4 ==> B64Value(g[i]).Some?
  {
    [B64Char(x / 4), B64Char(x % 4 * 16 + y / 16), B64Char(y % 16 * 4 + z / 64), B64Char(z % 64)]
  }

  /** The last, padded group: one byte gives two characters and "==", two
      bytes give three characters and "=". */
  function EncodeFinal(b: seq<byte>): (g: string)
    requires |b| < 3
    ensures |b| == 0 ==> g == ""
    ensures |b| > 0 ==> |g| == 4 && g[3] == '=' && (g[2] == '=' <==> |b| == 1)
    ensures forall i :: 0 <= i < |g| ==> IsB64Text(g[i])
  {
    if |b| == 0 then ""
    else if |b| == 1 then EncodeGroup(b[0], 0, 0)[..2] + "=="
    else EncodeGroup(b[0], b[1], 0)[..3] + "="
  }

  /** Encodes every three bytes as four characters; a final group of one or
      two bytes is padded. */
  function Base64Encode(b: seq<byte>): (s: string)
    ensures |s| == 4 * ((|b| + 2) / 3)
    decreases |b|
  {
    if |b| < 3 then EncodeFinal(b)
    else EncodeGroup(b[0], b[1], b[2]) + Base64Encode(b[3..])
  }

  /** Base64 output consists of the alphabet and the pad only. */
  lemma {:induction false} Base64EncodeText(b: seq<byte>)
    ensures forall i :: 0 <= i < |Base64Encode(b)| ==> IsB64Text(Base64Encode(b)[i])
    decreases |b|
  {
    if |b| >= 3 {
      Base64EncodeText(b[3..]);
      var s, g, t := Base64Encode(b), EncodeGroup(b[0], b[1], b[2]), Base64Encode(b[3..]);
      assert forall i :: 0 <= i < |s| ==> s[i] == if i < 4 then g[i] else t[i - 4];
    }
  }

  /** Four sextets as three bytes. */
  function DecodeGroup(c0: nat, c1: nat, c2: nat, c3: nat): (r: seq<byte>)
    requires c0 < 64 && c1 < 64 && c2 < 64 && c3 < 64
    ensures |r| == 3
  {
    [c0 * 4 + c1 / 16, c1 % 16 * 16 + c2 / 4, c2 % 4 * 64 + c3]
  }

  /** Four characters of the alphabet as three bytes. */
  function DecodeQuad(a: char, b: char, c: char, d: char): (r: Option<seq<byte>>)
    ensures r.Some? ==> |r.value| == 3
  {
    match (B64Value(a), B64Value(b), B64Value(c), B64Value(d))
    case (Some(c0), Some(c1), Some(c2), Some(c3)) => Some(DecodeGroup(c0, c1, c2, c3))
    case _ => None
  }

  /** Decodes groups of four characters; only the last group may carry
      padding. None for text that is not Base64. */
  function Base64Decode(s: string): Option<seq<byte>>
    decreases |s|
  {
    if |s| == 0 then Some([])
    else if |s| < 4 then None
    else if |s| == 4 && s[2] == '=' && s[3] == '=' then
      match DecodeQuad(s[0], s[1], 'A', 'A')
      case Some(g) => Some(g[..1])
      case None => None
    else if |s| == 4 && s[3] == '=' then
      match DecodeQuad(s[0], s[1], s[2], 'A')
      case Some(g) => Some(g[..2])
      case None => None
    else
      match (DecodeQuad(s[0], s[1], s[2], s[3]), Base64Decode(s[4..]))
      case (Some(g), Some(rest)) => Some(g + rest)
      case _ => None
  }

  lemma B64CharValue(i: nat)
    requires i < 64
    ensures B64Value(B64Char(i)) == Some(i)
  {
  }

  /** Splitting three bytes into four sextets and joining them again gives
      the three bytes back. */
  lemma GroupRoundTrip(x: byte, y: byte, z: byte)
    ensures var g := EncodeGroup(x, y, z); DecodeQuad(g[0], g[1], g[2], g[3]) == Some([x, y, z])
  {
    var c0, c1, c2, c3 := x / 4, x % 4 * 16 + y / 16, y % 16 * 4 + z / 64, z % 64;
    assert c1 / 16 == x % 4 && c1 % 16 == y / 16;
    assert c2 / 4 == y % 16 && c2 % 4 == z / 64;
    assert DecodeGroup(c0, c1, c2, c3) == [x, y, z];
    B64CharValue(c0);
    B64CharValue(c1);
    B64CharValue(c2);
    B64CharValue(c3);
  }

  /** A zero byte after the data contributes an 'A' where the padding
      goes. */
  lemma GroupZeroTail(x: byte, y: byte)
    ensures EncodeGroup(x, y, 0)[3] == 'A' && EncodeGroup(x, 0, 0)[2] == 'A'
  {
  }

  lemma OneByteRoundTrip(b: seq<byte>)
    requires |b| == 1
    ensures Base64Decode(Base64Encode(b)) == Some(b)
  {
    var s := Base64Encode(b);
    GroupRoundTrip(b[0], 0, 0);
    GroupZeroTail(b[0], 0);
    var g := EncodeGroup(b[0], 0, 0);
    assert s == g[..2] + "==";
    assert s[0] == g[0] && s[1] == g[1] && s[2] == '=' && s[3] == '=';
    assert DecodeQuad(s[0], s[1], 'A', 'A') == Some([b[0], 0, 0]);
    assert [b[0], 0, 0][..1] == b;
  }

  lemma TwoBytesRoundTrip(b: seq<byte>)
    requires |b| == 2
    ensures Base64Decode(Base64Encode(b)) == Some(b)
  {
    var s := Base64Encode(b);
    GroupRoundTrip(b[0], b[1], 0);
    GroupZeroTail(b[0], b[1]);
    var g := EncodeGroup(b[0], b[1], 0);
    assert s == g[..3] + "=";
    assert s[0] == g[0] && s[1] == g[1] && s[2] == g[2] && s[3] == '=';
    assert B64Value(s[2]).Some? && s[2] != '=';
    assert DecodeQuad(s[0], s[1], s[2], 'A') == Some([b[0], b[1], 0]);
    assert [b[0], b[1], 0][..2] == b;
  }

  lemma {:induction false} Base64RoundTrip(b: seq<byte>)
    ensures Base64Decode(Base64Encode(b)) == Some(b)
    decreases |b|
  {
    if |b| == 1 {
      OneByteRoundTrip(b);
    } else if |b| == 2 {
      TwoBytesRoundTrip(b);
    } else if |b| >= 3 {
      var s := Base64Encode(b);
      var g := EncodeGroup(b[0], b[1], b[2]);
      GroupRoundTrip(b[0], b[1], b[2]);
      Base64RoundTrip(b[3..]);
      assert s == g + Base64Encode(b[3..]);
      assert s[0] == g[0] && s[1] == g[1] && s[2] == g[2] && s[3] == g[3];
      assert s[4..] == Base64Encode(b[3..]);
      assert b == [b[0], b[1], b[2]] + b[3..];
    }
  }

  /** Encoding splits at any multiple of three bytes. */
  lemma {:induction false} Base64Concat(a: seq<byte>, c: seq<byte>)
    requires |a| % 3 == 0
    ensures Base64Encode(a + c) == Base64Encode(a) + Base64Encode(c)
    decreases |a|
  {
    if |a| > 0 {
      var ac := a + c;
      assert |a| >= 3 && |a[3..]| % 3 == 0;
      var g := EncodeGroup(a[0], a[1], a[2]);
      Base64Concat(a[3..], c);
      assert ac[3..] == a[3..] + c;
      assert ac[0] == a[0] && ac[1] == a[1] && ac[2] == a[2];
      assert Base64Encode(ac) == g + Base64Encode(a[3..] + c);
      assert Base64Encode(a) == g + Base64Encode(a[3..]);
    } else {
      assert a + c == c;
    }
  }

  // ---------------------------------------------------------------------
  // Python 2's str.encode('base64'), section 6.8 of RFC 2045
  // ---------------------------------------------------------------------

  /** Bytes per output line of base64.encodestring (76 characters). */
  const MimeChunk: nat := 57

  /** base64.encodestring: the input in 57-byte chunks, each Base64-encoded
      on a line of its own that ends in a newline; so the text is the
      Base64 characters plus one newline per started chunk. */
  function EncodeString(b: seq<byte>): (s: string)
    ensures |s| == 4 * ((|b| + 2) / 3) + (|b| + MimeChunk - 1) / MimeChunk
    ensures |b| > 0 ==> s[|s| - 1] == '\n'
    decreases |b|
  {
    if |b| == 0 then ""
    else if |b| <= MimeChunk then Base64Encode(b) + "\n"
    else
      EncodedLengthStep(|b|);
      Base64Encode(b[..MimeChunk]) + "\n" + EncodeString(b[MimeChunk..])
  }

  /** Taking one full chunk off the input takes 76 characters and one line
      off the output. */
  lemma EncodedLengthStep(n: int)
    requires n > MimeChunk
    ensures 4 * ((n + 2) / 3) == 4 * ((MimeChunk + 2) / 3) + 4 * ((n - MimeChunk + 2) / 3)
    ensures (n + MimeChunk - 1) / MimeChunk == 1 + (n - MimeChunk + MimeChunk - 1) / MimeChunk
  {
  }

  /** The text with every line break taken out. */
  function RemoveNewlines(s: string): (r: string)
    ensures forall i :: 0 <= i < |r| ==> r[i] != '\n'
    decreases |s|
  {
    if |s| == 0 then "" else (if s[0] == '\n' then "" else [s[0]]) + RemoveNewlines(s[1..])
  }

  // ---------------------------------------------------------------------
  // sha1hex2ldap
  // ---------------------------------------------------------------------

  /** The storage scheme tag OpenLDAP expects in front of a SHA-1 digest. */
  const ShaScheme: string := "{SHA}"

  /** sha1hex2ldap: hex-decode the digest, Base64-encode it the way Python 2
      does, strip the trailing newline and prefix the scheme tag. None where
      the hex decoding raises. */
  function Sha1Hex2Ldap(sha1hex: string): (r: Option<string>)
    ensures r.Some? <==> HexDecode(sha1hex).Some?
  {
    match HexDecode(sha1hex)
    case None => None
    case Some(digest) => Some(ShaScheme + RStrip(EncodeString(digest)))
  }

  /** How a reader of userPassword recovers the digest bytes: the scheme tag
      removed, line breaks ignored, the rest Base64-decoded. */
  function LdapShaDigest(v: string): Option<seq<byte>> {
    if |v| >= |ShaScheme| && v[..|ShaScheme|] == ShaScheme
    then Base64Decode(RemoveNewlines(v[|ShaScheme|..]))
    else None
  }

  /** The lines base64.encodestring produces, joined by newlines, without
      the final one. */
  function WrappedBase64(b: seq<byte>): string
    decreases |b|
  {
    if |b| <= MimeChunk then Base64Encode(b)
    else Base64Encode(b[..MimeChunk]) + "\n" + WrappedBase64(b[MimeChunk..])
  }

  lemma {:induction false} EncodeStringIsWrapped(b: seq<byte>)
    requires |b| > 0
    ensures EncodeString(b) == WrappedBase64(b) + "\n"
    ensures |WrappedBase64(b)| > 0 && IsB64Text(WrappedBase64(b)[|WrappedBase64(b)| - 1])
    decreases |b|
  {
    if |b| > MimeChunk {
      EncodeStringIsWrapped(b[MimeChunk..]);
    } else {
      Base64EncodeText(b);
    }
  }

  lemma {:induction false} RemoveNewlinesConcat(x: string, y: string)
    ensures RemoveNewlines(x + y) == RemoveNewlines(x) + RemoveNewlines(y)
    decreases |x|
  {
    if |x| > 0 {
      var xy := x + y;
      assert xy[0] == x[0];
      assert xy[1..] == x[1..] + y;
      RemoveNewlinesConcat(x[1..], y);
    } else {
      assert x + y == y;
    }
  }

  lemma {:induction false} RemoveNewlinesNone(s: string)
    requires forall i :: 0 <= i < |s| ==> s[i] != '\n'
    ensures RemoveNewlines(s) == s
    decreases |s|
  {
    if |s| > 0 {
      RemoveNewlinesNone(s[1..]);
      assert s == [s[0]] + s[1..];
    }
  }

  /** Taking the newlines out of one line, its break and the rest. */
  lemma RemoveNewlinesLine(h: string, t: string)
    requires forall i :: 0 <= i < |h| ==> h[i] != '\n'
    ensures RemoveNewlines(h + "\n" + t) == h + RemoveNewlines(t)
  {
    var nl := "\n";
    assert h + nl + t == (h + nl) + t;
    RemoveNewlinesConcat(h + nl, t);
    RemoveNewlinesConcat(h, nl);
    RemoveNewlinesNone(h);
    assert nl[1..] == "";
    assert RemoveNewlines(nl) == "" + RemoveNewlines(nl[1..]);
  }

  /** The line breaks are the only thing encodestring adds to plain Base64. */
  lemma {:induction false} UnwrapBase64(b: seq<byte>)
    ensures RemoveNewlines(WrappedBase64(b)) == Base64Encode(b)
    decreases |b|
  {
    if |b| <= MimeChunk {
      Base64EncodeText(b);
      RemoveNewlinesNone(Base64Encode(b));
    } else {
      var head, tail := b[..MimeChunk], b[MimeChunk..];
      var h := Base64Encode(head);
      Base64EncodeText(head);
      UnwrapBase64(tail);
      RemoveNewlinesLine(h, WrappedBase64(tail));
      Base64Concat(head, tail);
      assert head + tail == b;
    }
  }

  /** rstrip() removes exactly the final newline of the encoding. */
  lemma StripEncodeString(b: seq<byte>)
    ensures RStrip(EncodeString(b)) == WrappedBase64(b)
  {
    if |b| > 0 {
      EncodeStringIsWrapped(b);
      var w := WrappedBase64(b);
      var r := RStrip(w + "\n");
      assert (w + "\n")[|w|] == '\n';
      assert r == (w + "\n")[..|r|];
      assert (w + "\n")[..|w|] == w;
    }
  }

  /** Stripping the tag and Base64-decoding the userPassword value gives back
      exactly the digest bytes that `division` held. */
  lemma Sha1Hex2LdapRoundTrip(sha1hex: string)
    requires HexDecode(sha1hex).Some?
    ensures LdapShaDigest(Sha1Hex2Ldap(sha1hex).value) == HexDecode(sha1hex)
  {
    var digest := HexDecode(sha1hex).value;
    var v := Sha1Hex2Ldap(sha1hex).value;
    StripEncodeString(digest);
    UnwrapBase64(digest);
    Base64RoundTrip(digest);
    assert v[..|ShaScheme|] == ShaScheme;
    assert v[|ShaScheme|..] == WrappedBase64(digest);
  }

  /** A digest of at most 57 bytes is one Base64 line, so the value carries no
      line break at all. */
  lemma Sha1Hex2LdapOneLine(sha1hex: string)
    requires HexDecode(sha1hex).Some? && |HexDecode(sha1hex).value| <= MimeChunk
    ensures Sha1Hex2Ldap(sha1hex) == Some(ShaScheme + Base64Encode(HexDecode(sha1hex).value))
  {
    StripEncodeString(HexDecode(sha1hex).value);
  }

  /** A 40-digit SHA-1 hex digest (20 bytes) becomes a 33-character value. */
  lemma Sha1Hex2LdapLength(sha1hex: string)
    requires |sha1hex| == 40 && HexDecode(sha1hex).Some?
    ensures |Sha1Hex2Ldap(sha1hex).value| == 33
  {
    Sha1Hex2LdapOneLine(sha1hex);
  }

  // ---------------------------------------------------------------------
  // ft2ut
  // ---------------------------------------------------------------------

  /** 100-nanosecond ticks from 1601-01-01 to 1970-01-01. */
  const EpochDeltaTicks: int := 116444736000000000

  /** 100-nanosecond ticks in one second. */
  const TicksPerSecond: int := 10000000

  /** ft2ut: FILETIME ticks to Unix seconds, rounding down (Python 2's `/`
      on a long floors, as Dafny's does for a positive divisor). The result
      is the second in which the tick falls. */
  function Ft2Ut(ft: int): (ut: int)
    ensures EpochDeltaTicks + ut * TicksPerSecond <= ft < EpochDeltaTicks + (ut + 1) * TicksPerSecond
  {
    (ft - EpochDeltaTicks) / TicksPerSecond
  }

  /** The first FILETIME tick of Unix second ut. */
  function Ut2Ft(ut: int): (ft: int)
    ensures ft - EpochDeltaTicks == ut * TicksPerSecond
  {
    EpochDeltaTicks + ut * TicksPerSecond
  }

  lemma Ft2UtOfUt2Ft(ut: int)
    ensures Ft2Ut(Ut2Ft(ut)) == ut
  {
    var ft := Ut2Ft(ut);
    var r := Ft2Ut(ft);
    assert EpochDeltaTicks + r * TicksPerSecond <= ft < EpochDeltaTicks + (r + 1) * TicksPerSecond;
  }

  /** Ut2Ft(Ft2Ut(ft)) is the last second boundary at or before ft. */
  lemma Ut2FtOfFt2Ut(ft: int)
    ensures Ut2Ft(Ft2Ut(ft)) <= ft < Ut2Ft(Ft2Ut(ft) + 1)
  {
  }

  lemma Ft2UtMonotone(ft1: int, ft2: int)
    requires ft1 <= ft2
    ensures Ft2Ut(ft1) <= Ft2Ut(ft2)
  {
  }

  lemma Ft2UtNonNegative(ft: int)
    requires ft >= EpochDeltaTicks
    ensures Ft2Ut(ft) >= 0
  {
  }

  /** The Unix epoch is FILETIME EpochDeltaTicks, and every further
      TicksPerSecond ticks add one second. */
  lemma Ft2UtSteps(ft: int)
    ensures Ft2Ut(EpochDeltaTicks) == 0
    ensures Ft2Ut(ft + TicksPerSecond) == Ft2Ut(ft) + 1
  {
    var u, v := Ft2Ut(ft), Ft2Ut(ft + TicksPerSecond);
    assert EpochDeltaTicks + (u + 1) * TicksPerSecond <= ft + TicksPerSecond;
  }
}
