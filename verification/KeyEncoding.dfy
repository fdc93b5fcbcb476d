/**
 Public keys on their way to a key set: the DER wrapping of an elliptic-curve point, the PEM text around it,
 and the stripping of that text again.
 */
module KeyEncoding {
  import opened Base

  type Byte = b: int | 0 <= b < 256

  type Bytes = seq<Byte>

  const SEQUENCE: Byte := 0x30
  const BIT_STRING: Byte := 0x03

  /** 1.2.840.10045.2.1 and 1.2.840.10045.3.1.7, with tag and length. */
  const EC_OID: Bytes := [0x06, 0x07, 0x2a, 0x86, 0x48, 0xce, 0x3d, 0x02, 0x01]
  const P256_OID: Bytes := [0x06, 0x08, 0x2a, 0x86, 0x48, 0xce, 0x3d, 0x03, 0x01, 0x07]
  const ALGORITHM: Bytes := EC_OID + P256_OID

  // ----- writing DER -----

  /** Length octets.  The casts to a byte keep the low eight bits. */
  function LengthOctets(n: nat): Bytes {
    if n < 128 then [n % 256]
    else if n < 256 then [0x81, n % 256]
    else [0x82, n / 256 % 256, n % 256]
  }

  function Tlv(tag: Byte, content: Bytes): Bytes {
    [tag] + LengthOctets(|content|) + content
  }

  /** SubjectPublicKeyInfo (RFC 5480, section 2). */
  function Spki(key: Bytes): Bytes {
    Tlv(SEQUENCE, Tlv(SEQUENCE, ALGORITHM) + Tlv(BIT_STRING, [0] + key))
  }

  lemma AlgorithmOctets()
    ensures Tlv(SEQUENCE, ALGORITHM) ==
              [0x30, 0x13, 0x06, 0x07, 0x2a, 0x86, 0x48, 0xce, 0x3d, 0x02, 0x01,
               0x06, 0x08, 0x2a, 0x86, 0x48, 0xce, 0x3d, 0x03, 0x01, 0x07]
  {
    assert |ALGORITHM| == 19 && LengthOctets(19) == [0x13];
  }

  lemma BitsOctets(key: Bytes)
    requires |key| == 65
    ensures Tlv(BIT_STRING, [0] + key) == [0x03, 0x42, 0x00] + key
  {
    assert |[0] + key| == 66 && LengthOctets(66) == [0x42];
  }

  /** An uncompressed P-256 point of 65 bytes, octet by octet. */
  lemma P256IsWrapped(key: Bytes)
    requires |key| == 65
    ensures Spki(key) == [0x30, 0x59] + ([0x30, 0x13, 0x06, 0x07, 0x2a, 0x86, 0x48, 0xce, 0x3d, 0x02, 0x01,
                                          0x06, 0x08, 0x2a, 0x86, 0x48, 0xce, 0x3d, 0x03, 0x01, 0x07] + ([0x03, 0x42, 0x00] + key))
  {
    AlgorithmOctets();
    BitsOctets(key);
    SequenceOf89(Tlv(SEQUENCE, ALGORITHM) + Tlv(BIT_STRING, [0] + key));
  }

  lemma SequenceOf89(content: Bytes)
    requires |content| == 89
    ensures Tlv(SEQUENCE, content) == [0x30, 0x59] + content
  {
    assert LengthOctets(89) == [0x59];
  }

  method PushDerLength(buf: Bytes, n: nat) returns (out: Bytes)
    ensures out == buf + LengthOctets(n)
  {
    if n < 128 {
      out := buf + [n % 256];
    } else if n < 256 {
      out := buf + [0x81];
      out := out + [n % 256];
    } else {
      out := buf + [0x82];
      out := out + [n / 256 % 256];
      out := out + [n % 256];
    }
  }

  method WrapEcPublicKeySpki(key: Bytes) returns (spki: Bytes)
    ensures spki == Spki(key)
  {
    var algorithm := PushDerLength([SEQUENCE], |EC_OID| + |P256_OID|);
    algorithm := algorithm + EC_OID;
    algorithm := algorithm + P256_OID;
    var bits := PushDerLength([BIT_STRING], 1 + |key|);
    bits := bits + [0];
    bits := bits + key;
    spki := PushDerLength([SEQUENCE], |algorithm| + |bits|);
    spki := spki + algorithm;
    spki := spki + bits;
    assert algorithm == Tlv(SEQUENCE, ALGORITHM);
    assert bits == Tlv(BIT_STRING, [0] + key);
  }

  // ----- reading DER: definite lengths, in as few octets as possible (X.690, sections 8.1.3 and 10.1) -----

  function BigEndian(s: Bytes): nat {
    if s == [] then 0 else BigEndian(s[..|s| - 1]) * 256 + s[|s| - 1]
  }

  function ReadLength(b: Bytes): Option<(nat, Bytes)> {
    if b == [] then None
    else if b[0] < 128 then Some((b[0], b[1..]))
    else
      var k := b[0] - 128;
      if k == 0 || k == 127 || |b| < 1 + k || b[1] == 0 || BigEndian(b[1..1 + k]) < 128 then None
      else Some((BigEndian(b[1..1 + k]), b[1 + k..]))
  }

  /** The content of a value with this tag, and what comes after it. */
  function ReadTlv(b: Bytes, tag: Byte): Option<(Bytes, Bytes)> {
    if b == [] || b[0] != tag then None
    else
      match ReadLength(b[1..])
      case None => None
      case Some((n, rest)) => if |rest| < n then None else Some((rest[..n], rest[n..]))
  }

  function ReadSpki(b: Bytes): Option<Bytes> {
    match ReadTlv(b, SEQUENCE)
    case None => None
    case Some((content, after)) =>
      if after != [] then None
      else
        match ReadTlv(content, SEQUENCE)
        case None => None
        case Some((algorithm, rest)) => if algorithm != ALGORITHM then None else ReadBits(rest)
  }

  function ReadBits(b: Bytes): Option<Bytes> {
    match ReadTlv(b, BIT_STRING)
    case None => None
    case Some((bits, after)) => if after != [] || bits == [] || bits[0] != 0 then None else Some(bits[1..])
  }

  // ----- lengths -----

  lemma BigEndianTwo(s: Bytes)
    requires |s| == 2
    ensures BigEndian(s) == (s[0] as int) * 256 + s[1] as int
  {
    assert s[..1] == [s[0]] && s[..1][..0] == [];
    assert BigEndian([]) == 0;
    assert BigEndian(s[..1]) == s[0];
  }

  lemma BigEndianOne(s: Bytes)
    requires |s| == 1
    ensures BigEndian(s) == s[0]
  {
    assert s[..0] == [];
  }

  lemma {:induction false} BigEndianLong(s: Bytes)
    requires |s| >= 3 && s[0] != 0
    ensures BigEndian(s) >= 65536
  {
    if |s| == 3 {
      BigEndianTwo(s[..2]);
    } else {
      BigEndianLong(s[..|s| - 1]);
    }
  }

  lemma ShortLengthIsRead(n: nat, rest: Bytes)
    requires n < 128
    ensures ReadLength(LengthOctets(n) + rest) == Some((n, rest))
  {
    assert (LengthOctets(n) + rest)[1..] == rest;
  }

  lemma OneOctetIsRead(n: nat, rest: Bytes)
    requires 128 <= n < 256
    ensures ReadLength(LengthOctets(n) + rest) == Some((n, rest))
  {
    var b := LengthOctets(n) + rest;
    assert b[1..2] == [n] && b[2..] == rest;
    BigEndianOne(b[1..2]);
  }

  lemma OctetsThenRest(first: Byte, high: Byte, low: Byte, rest: Bytes)
    ensures ([first, high, low] + rest)[1..3] == [high, low] && ([first, high, low] + rest)[3..] == rest
  {
  }

  lemma TwoOctetsAreRead(n: nat, rest: Bytes)
    requires n >= 256
    ensures var r := ReadLength(LengthOctets(n) + rest);
            if n / 256 % 256 == 0 then r.None? else r == Some((n % 65536, rest))
  {
    var b := LengthOctets(n) + rest;
    var high, low := n / 256 % 256, n % 256;
    OctetsThenRest(0x82, high, low, rest);
    BigEndianTwo([high, low]);
    assert n % 65536 == high * 256 + low;
  }

  /** Length octets are read back as the length modulo 65536, or rejected. */
  lemma LengthIsRead(n: nat, rest: Bytes)
    ensures n < 65536 ==> ReadLength(LengthOctets(n) + rest) == Some((n, rest))
    ensures n >= 65536 ==>
              var r := ReadLength(LengthOctets(n) + rest);
              r.None? || r == Some((n % 65536, rest))
  {
    if n < 128 {
      ShortLengthIsRead(n, rest);
    } else if n < 256 {
      OneOctetIsRead(n, rest);
    } else {
      TwoOctetsAreRead(n, rest);
    }
  }

  /** Nothing else is accepted for a length below 65536. */
  lemma ReadLengthIsCanonical(b: Bytes)
    requires ReadLength(b).Some? && ReadLength(b).value.0 < 65536
    ensures b == LengthOctets(ReadLength(b).value.0) + ReadLength(b).value.1
  {
    if b[0] >= 128 {
      var k := b[0] - 128;
      var octets := b[1..1 + k];
      assert b == [b[0]] + octets + b[1 + k..];
      if k >= 3 {
        BigEndianLong(octets);
      } else if k == 2 {
        BigEndianTwo(octets);
      } else {
        BigEndianOne(octets);
      }
    }
  }

  // ----- values -----

  lemma TlvIsRead(tag: Byte, content: Bytes, rest: Bytes)
    requires |content| < 65536
    ensures ReadTlv(Tlv(tag, content) + rest, tag) == Some((content, rest))
  {
    var b := Tlv(tag, content) + rest;
    assert b[1..] == LengthOctets(|content|) + (content + rest);
    LengthIsRead(|content|, content + rest);
    assert (content + rest)[..|content|] == content && (content + rest)[|content|..] == rest;
  }

  /** A longer content is never taken whole. */
  lemma LongTlvIsNotRead(tag: Byte, content: Bytes)
    requires |content| >= 65536
    ensures var r := ReadTlv(Tlv(tag, content), tag); r.None? || r.value.1 != []
  {
    var b := Tlv(tag, content);
    assert b[1..] == LengthOctets(|content|) + content;
    LengthIsRead(|content|, content);
  }

  lemma Regroup(tag: Byte, octets: Bytes, content: Bytes, after: Bytes)
    ensures [tag] + (octets + (content + after)) == [tag] + octets + content + after
  {
  }

  lemma ReadTlvIsCanonical(b: Bytes, tag: Byte, content: Bytes, after: Bytes)
    requires ReadTlv(b, tag) == Some((content, after)) && |content| < 65536
    ensures b == Tlv(tag, content) + after
  {
    var rest := ReadLength(b[1..]).value.1;
    ReadLengthIsCanonical(b[1..]);
    assert rest == content + after;
    assert b == [tag] + b[1..];
    Regroup(tag, LengthOctets(|content|), content, after);
  }

  // ----- the wrapped key -----

  function SpkiContent(key: Bytes): Bytes {
    Tlv(SEQUENCE, ALGORITHM) + Tlv(BIT_STRING, [0] + key)
  }

  lemma SpkiContentLength(key: Bytes)
    ensures |SpkiContent(key)| < 65536 <==> |key| < 65510
  {
  }

  lemma ContentIsRead(key: Bytes)
    requires |key| < 65535
    ensures ReadTlv(SpkiContent(key), SEQUENCE) == Some((ALGORITHM, Tlv(BIT_STRING, [0] + key)))
    ensures ReadBits(Tlv(BIT_STRING, [0] + key)) == Some(key)
  {
    TlvIsRead(SEQUENCE, ALGORITHM, Tlv(BIT_STRING, [0] + key));
    TlvIsRead(BIT_STRING, [0] + key, []);
    assert Tlv(BIT_STRING, [0] + key) + [] == Tlv(BIT_STRING, [0] + key);
  }

  /** The key comes back from its wrapping exactly if it has fewer than 65510 bytes, which is when the content
      of the outer sequence has fewer than 65536; a longer one gets a length that is cut to sixteen bits. */
  lemma SpkiRoundTrips(key: Bytes)
    ensures ReadSpki(Spki(key)) == Some(key) <==> |key| < 65510
    ensures |key| >= 65510 ==> ReadSpki(Spki(key)).None?
  {
    SpkiContentLength(key);
    if |key| < 65510 {
      TlvIsRead(SEQUENCE, SpkiContent(key), []);
      assert Spki(key) + [] == Spki(key);
      ContentIsRead(key);
    } else {
      LongTlvIsNotRead(SEQUENCE, SpkiContent(key));
    }
  }

  lemma ReadBitsIsCanonical(b: Bytes, key: Bytes)
    requires ReadBits(b) == Some(key) && |key| < 65535
    ensures b == Tlv(BIT_STRING, [0] + key)
  {
    var bits := ReadTlv(b, BIT_STRING).value.0;
    assert bits == [0] + key;
    ReadTlvIsCanonical(b, BIT_STRING, bits, []);
  }

  /** And what the decoder accepts is the wrapping of what it returns. */
  lemma ReadSpkiIsCanonical(b: Bytes, key: Bytes)
    requires ReadSpki(b) == Some(key) && |key| < 65510
    ensures b == Spki(key)
  {
    var content := ReadTlv(b, SEQUENCE).value.0;
    var bits := ReadTlv(content, SEQUENCE).value.1;
    ReadBitsIsCanonical(bits, key);
    ReadTlvIsCanonical(content, SEQUENCE, ALGORITHM, bits);
    SpkiContentLength(key);
    ReadTlvIsCanonical(b, SEQUENCE, content, []);
  }

  // ----- PEM (RFC 7468, section 2) -----

  const DASHES := "-----"

  function BeginLine(title: string): string {
    DASHES + "BEGIN " + title + DASHES
  }

  function EndLine(title: string): string {
    DASHES + "END " + title + DASHES
  }

  function Chunked(b64: string): string {
    if b64 == "" then "" else b64[..Min(64, |b64|)] + "\n" + Chunked(b64[Min(64, |b64|)..])
  }

  function Pem(title: string, b64: string): string {
    BeginLine(title) + "\n" + Chunked(b64) + EndLine(title) + "\n"
  }

  /** The markers, and an empty text between them. */
  lemma PemMarkers(title: string, b64: string)
    ensures Pem(title, b64) == ("-----BEGIN " + title + "-----\n") + (Chunked(b64) + ("-----END " + title + "-----\n"))
    ensures Chunked("") == ""
  {
    assert "-----BEGIN " == DASHES + "BEGIN " && "-----END " == DASHES + "END " && "-----\n" == DASHES + "\n";
  }

  /** Lines of 64: exactly every 65th character ends a line, and the last one. */
  lemma {:induction false} LinesOf64(b64: string, i: nat)
    requires '\n' !in b64 && i < |Chunked(b64)|
    ensures Chunked(b64)[i] == '\n' <==> i % 65 == 64 || i == |Chunked(b64)| - 1
    decreases |b64|
  {
    if |b64| <= 64 {
      assert b64[..|b64|] == b64 && b64[|b64|..] == "";
      assert Chunked(b64) == b64 + "\n";
    } else {
      var first, rest := b64[..64], Chunked(b64[64..]);
      assert Chunked(b64) == first + "\n" + rest;
      ChunkedIsNotEmpty(b64[64..]);
      if i >= 65 {
        LinesOf64(b64[64..], i - 65);
        assert Chunked(b64)[i] == rest[i - 65];
        assert i % 65 == (i - 65) % 65;
      }
    }
  }

  lemma ChunkedIsNotEmpty(b64: string)
    requires b64 != ""
    ensures Chunked(b64) != ""
  {
  }

  lemma NextChunk(pem: string, b64: string, i: nat, n: nat)
    requires i < |b64| && n == Min(64, |b64| - i)
    ensures ((pem + b64[i..i + n]) + "\n") + Chunked(b64[i + n..]) == pem + Chunked(b64[i..])
  {
    var rest := b64[i..];
    assert rest[..n] == b64[i..i + n] && rest[n..] == b64[i + n..];
    Associate(pem, rest[..n], "\n", Chunked(rest[n..]));
    Assoc(rest[..n], "\n", Chunked(rest[n..]));
  }

  method FormatPem(title: string, b64: string) returns (pem: string)
    ensures pem == Pem(title, b64)
  {
    pem := BeginLine(title) + "\n";
    var i := 0;
    while i < |b64|
      invariant i <= |b64|
      invariant pem + Chunked(b64[i..]) == BeginLine(title) + "\n" + Chunked(b64)
    {
      var n := Min(64, |b64| - i);
      NextChunk(pem, b64, i, n);
      pem := pem + b64[i..i + n];
      pem := pem + "\n";
      i := i + n;
    }
    assert pem + "" == pem;
    pem := pem + (EndLine(title) + "\n");
  }

  function LineLength(s: string): (n: nat)
    ensures n <= |s|
  {
    if s == "" || s[0] == '\n' then 0 else 1 + LineLength(s[1..])
  }

  /** A line does not keep the carriage return at its end. */
  function Chomp(line: string): string {
    if line != "" && line[|line| - 1] == '\r' then line[..|line| - 1] else line
  }

  function Lines(s: string): seq<string> {
    if s == "" then []
    else
      var n := LineLength(s);
      [Chomp(s[..n])] + if n < |s| then Lines(s[n + 1..]) else []
  }

  function Unmarked(lines: seq<string>): string {
    if lines == [] then ""
    else (if DASHES <= lines[0] then "" else lines[0]) + Unmarked(lines[1..])
  }

  /** The certificate entry of the key set: all lines that are not markers, put together. */
  function StripPem(pem: string): string {
    Unmarked(Lines(pem))
  }

  predicate Base64Char(c: char) {
    'A' <= c <= 'Z' || 'a' <= c <= 'z' || '0' <= c <= '9' || c == '+' || c == '/' || c == '='
  }

  predicate IsBase64(s: string) {
    forall i | 0 <= i < |s| :: Base64Char(s[i])
  }

  lemma {:induction false} LineLengthAt(line: string, rest: string)
    requires '\n' !in line
    ensures LineLength(line + ("\n" + rest)) == |line|
  {
    if line != "" {
      assert (line + ("\n" + rest))[1..] == line[1..] + ("\n" + rest);
      LineLengthAt(line[1..], rest);
    }
  }

  lemma FirstLine(line: string, rest: string)
    requires '\n' !in line
    ensures Lines(line + ("\n" + rest)) == [Chomp(line)] + Lines(rest)
  {
    var s := line + ("\n" + rest);
    LineLengthAt(line, rest);
    assert s[..|line|] == line && s[|line| + 1..] == rest;
  }

  lemma MarkerIsDropped(line: string, rest: string)
    requires '\n' !in line && DASHES <= Chomp(line)
    ensures StripPem(line + ("\n" + rest)) == StripPem(rest)
  {
    FirstLine(line, rest);
    assert ([Chomp(line)] + Lines(rest))[1..] == Lines(rest);
  }

  lemma TextIsKept(line: string, rest: string)
    requires IsBase64(line) && line != ""
    ensures StripPem(line + ("\n" + rest)) == line + StripPem(rest)
  {
    FirstLine(line, rest);
    assert Base64Char(line[0]) && Base64Char(line[|line| - 1]);
    assert ([line] + Lines(rest))[1..] == Lines(rest);
  }

  lemma UnmarkedFirst(line: string, lines: seq<string>)
    requires !(DASHES <= line)
    ensures Unmarked([line] + lines) == line + Unmarked(lines)
  {
    assert ([line] + lines)[1..] == lines;
  }

  lemma Base64IsOneLine(line: string)
    requires IsBase64(line)
    ensures '\n' !in line + "\r" && !(DASHES <= line) && Chomp(line + "\r") == line
  {
    assert line != "" ==> Base64Char(line[0]);
    assert forall i | 0 <= i < |line| :: Base64Char(line[i]);
    TakeInside(line, "\r", |line|);
  }

  /** A text with carriage returns before its line feeds is stripped alike. */
  lemma CarriageReturnsAreDropped(line: string, rest: string)
    requires IsBase64(line)
    ensures StripPem((line + "\r") + ("\n" + rest)) == line + StripPem(rest)
  {
    Base64IsOneLine(line);
    FirstLine(line + "\r", rest);
    UnmarkedFirst(line, Lines(rest));
  }

  lemma ChunkedFirst(b64: string, rest: string, n: nat)
    requires b64 != "" && n == Min(64, |b64|)
    ensures Chunked(b64) + rest == b64[..n] + ("\n" + (Chunked(b64[n..]) + rest))
  {
    Associate(b64[..n], "\n", Chunked(b64[n..]), rest);
  }

  lemma Associate(a: string, b: string, c: string, d: string)
    ensures a + b + c + d == a + (b + (c + d))
  {
  }

  lemma ChunkIsKept(line: string, text: string, more: string, tail: string)
    requires IsBase64(line) && line != "" && StripPem(text) == more + tail
    ensures StripPem(line + ("\n" + text)) == (line + more) + tail
  {
    TextIsKept(line, text);
  }

  lemma SplitBase64(s: string, n: nat)
    requires IsBase64(s) && n <= |s|
    ensures IsBase64(s[..n]) && IsBase64(s[n..]) && s == s[..n] + s[n..]
  {
  }

  lemma {:induction false} ChunksAreKept(b64: string, rest: string)
    requires IsBase64(b64)
    ensures StripPem(Chunked(b64) + rest) == b64 + StripPem(rest)
    decreases |b64|
  {
    if b64 == "" {
      assert Chunked(b64) + rest == rest;
    } else {
      var n := Min(64, |b64|);
      SplitBase64(b64, n);
      ChunkedFirst(b64, rest, n);
      ChunksAreKept(b64[n..], rest);
      ChunkIsKept(b64[..n], Chunked(b64[n..]) + rest, b64[n..], StripPem(rest));
    }
  }

  lemma MarkersStartWithDashes(title: string)
    ensures DASHES <= BeginLine(title) && DASHES <= EndLine(title)
    ensures Chomp(BeginLine(title)) == BeginLine(title) && Chomp(EndLine(title)) == EndLine(title)
    ensures '\n' !in title ==> '\n' !in BeginLine(title) && '\n' !in EndLine(title)
  {
    assert BeginLine(title) == DASHES + ("BEGIN " + title + DASHES);
    assert EndLine(title) == DASHES + ("END " + title + DASHES);
  }

  /** Stripping gives back every base64 text exactly, whatever its length. */
  lemma StripUndoesPem(title: string, b64: string)
    requires IsBase64(b64) && '\n' !in title
    ensures StripPem(Pem(title, b64)) == b64
  {
    MarkersStartWithDashes(title);
    var tail := EndLine(title) + ("\n" + "");
    assert Pem(title, b64) == BeginLine(title) + ("\n" + (Chunked(b64) + tail));
    MarkerIsDropped(BeginLine(title), Chunked(b64) + tail);
    ChunksAreKept(b64, tail);
    MarkerIsDropped(EndLine(title), "");
  }

  /** From the raw key through DER, base64 and PEM into the key set and back. */
  lemma KeySurvivesPublication(key: Bytes, title: string, encode: Bytes -> string, decode: string -> Option<Bytes>)
    requires forall b: Bytes :: IsBase64(encode(b)) && decode(encode(b)) == Some(b)
    requires '\n' !in title
    ensures var entry := decode(StripPem(Pem(title, encode(Spki(key)))));
            entry.Some? && (ReadSpki(entry.value) == Some(key) <==> |key| < 65510)
  {
    StripUndoesPem(title, encode(Spki(key)));
    SpkiRoundTrips(key);
  }
}
