/** The pairing reference in the QR code: printed by the computer (cli/main.go:292-307,
    cli/control_server.go:418-433) and read by the phone (PairingCodec.kt:17-45, 87-92). */
module Pairing {
  import opened Bytes
  import opened Captures
  import Base64
  import opened Texts

  // ----- printing -----

  /** A parsed download URL; the path is the escaped one. */
  datatype Endpoint = Endpoint(scheme: string, host: string, port: string, path: string)

  function UrlText(e: Endpoint): string {
    e.scheme + "://" + e.host + ":" + e.port + e.path
  }

  const TOKEN_PATH := "/p/"

  function Characters(data: seq<Byte>): string {
    seq(|data|, i requires 0 <= i < |data| => data[i] as char)
  }

  /** RawURLEncoding of section 5 of RFC 4648. */
  function DigestText(digest: seq<Byte>): string {
    Characters(Base64.Encode(digest, true, false))
  }

  predicate Printable(e: Endpoint, scheme: string) {
    e.scheme == scheme && e.host != "" && e.port != "" && TOKEN_PATH <= e.path && |e.path| > |TOKEN_PATH|
  }

  function Token(e: Endpoint): string
    requires TOKEN_PATH <= e.path
  {
    e.path[|TOKEN_PATH|..]
  }

  function EncodePairingReference(e: Endpoint, digest: seq<Byte>): Option<string> {
    if !Printable(e, "http") then None
    else Some("httpcapture://p/3/" + e.host + "/" + e.port + "/" + Token(e) + "/" + DigestText(digest))
  }

  function EncodeControlPairingReference(e: Endpoint, fingerprint: string, digest: seq<Byte>): Option<string> {
    if !Printable(e, "https") then None
    else
      Some("httpcapture://p/4/" + e.host + "/" + e.port + "/" + Token(e) + "/" + Upper(fingerprint)
           + "/" + DigestText(digest))
  }

  // ----- reading -----

  datatype Uri = Uri(scheme: string, host: string, path: string, query: Option<string>, fragment: Option<string>)

  /** The general URI grammar is left abstract. */
  type UriParser = string -> Option<Uri>

  predicate IsUnreserved(c: char) {
    'a' <= c <= 'z' || 'A' <= c <= 'Z' || '0' <= c <= '9' || c == '-' || c == '_' || c == '.'
  }

  predicate PlainPath(path: string) {
    path != "" && path[0] == '/' && forall c | c in path :: c == '/' || IsUnreserved(c)
  }

  /** What is used of it (section 3 of RFC 3986): a path of slashes and unreserved characters behind this
      scheme and host is read as it stands. */
  ghost predicate ReadsPlainPaths(parse: UriParser) {
    forall path {:trigger parse("httpcapture://p" + path)} ::
      PlainPath(path) ==> parse("httpcapture://p" + path) == Some(Uri("httpcapture", "p", path, None, None))
  }

  predicate IsSpace(c: char) {
    var n := c as int;
    9 <= n <= 13 || 28 <= n <= 32 || n == 0xA0 || n == 0x1680 || 0x2000 <= n <= 0x200A
    || n == 0x2028 || n == 0x2029 || n == 0x202F || n == 0x205F || n == 0x3000
  }

  function Trim(s: string, drop: char -> bool): string {
    if s == "" then ""
    else if drop(s[0]) then Trim(s[1..], drop)
    else if drop(s[|s| - 1]) then Trim(s[..|s| - 1], drop)
    else s
  }

  function Split(s: string, separator: char): (parts: seq<string>)
    ensures parts != []
  {
    if s == "" then [""]
    else
      var rest := Split(s[1..], separator);
      if s[0] == separator then [""] + rest else [[s[0]] + rest[0]] + rest[1..]
  }

  predicate IsOctet(part: string) {
    1 <= |part| <= 3 && (forall c | c in part :: IsDigit(c)) && Digits(part) <= 255
  }

  predicate IsIpv4(value: string) {
    var parts := Split(value, '.');
    |parts| == 4 && forall part | part in parts :: IsOctet(part)
  }

  predicate IsToken(s: string) {
    22 <= |s| <= 128
    && forall c | c in s :: 'a' <= c <= 'z' || 'A' <= c <= 'Z' || '0' <= c <= '9' || c == '-' || c == '_'
  }

  predicate IsFingerprint(s: string) {
    |s| == 64 && forall c | c in s :: '0' <= c <= '9' || 'A' <= c <= 'F'
  }

  function Codes(text: string): seq<Byte> {
    seq(|text|, i requires 0 <= i < |text| => if text[i] as int < 256 then text[i] as int else 63)
  }

  /** Java's URL decoder on a string. */
  function DecodeDigest(text: string): Option<seq<Byte>> {
    Base64.Decode(Codes(text), true, Base64.Optional)
  }

  function DownloadUrl(scheme: string, host: string, port: nat, token: string): string {
    scheme + "://" + host + ":" + Decimal(port) + "/p/" + token
  }

  datatype Problem = TooLong | NotAReference | UnknownVersion | BadAddress | BadToken | BadFingerprint | BadDigest

  datatype Decoded =
    | Reference(downloadUrl: string, bundleSha256: string, controlCertSha256: Option<string>)
    | Refused(problem: Problem)

  function DecodeReference(value: string, parse: UriParser): Decoded {
    var raw := Trim(value, IsSpace);
    if |raw| > 1024 then Refused(TooLong)
    else
      match parse(raw)
      case None => Refused(NotAReference)
      case Some(uri) =>
        if !(uri.scheme == "httpcapture" && uri.host == "p" && uri.query == None && uri.fragment == None)
          then Refused(NotAReference)
        else DecodeSegments(Split(Trim(uri.path, c => c == '/'), '/'))
  }

  function DecodeSegments(segments: seq<string>): Decoded {
    if !((|segments| == 5 && segments[0] == "3") || (|segments| == 6 && segments[0] == "4"))
      then Refused(UnknownVersion)
    else
      var v4 := segments[0] == "4";
      DecodeFields(segments[1], segments[2], segments[3], if v4 then Some(Upper(segments[4])) else None,
                   if v4 then segments[5] else segments[4])
  }

  function DecodeFields(
    host: string, portText: string, token: string, fingerprint: Option<string>, digest: string): Decoded {
    var port := Atoi(portText);
    if !(IsIpv4(host) && host != "0.0.0.0" && port.Some? && 1 <= port.value <= 65535) then Refused(BadAddress)
    else if !IsToken(token) then Refused(BadToken)
    else if fingerprint.Some? && !IsFingerprint(fingerprint.value) then Refused(BadFingerprint)
    else if DecodeDigest(digest) == None || |DecodeDigest(digest).value| != 32 then Refused(BadDigest)
    else Reference(DownloadUrl(if fingerprint.Some? then "https" else "http", host, port.value, token), digest,
      fingerprint)
  }

  // ----- splitting -----

  lemma {:induction false} SplitFirst(a: string, rest: string, separator: char)
    requires separator !in a
    ensures Split(a + ([separator] + rest), separator) == [a] + Split(rest, separator)
    decreases |a|
  {
    if a == "" {
      assert a + ([separator] + rest) == [separator] + rest;
      assert ([separator] + rest)[1..] == rest;
    } else {
      assert (a + ([separator] + rest))[1..] == a[1..] + ([separator] + rest);
      SplitFirst(a[1..], rest, separator);
      assert [a[0]] + a[1..] == a;
    }
  }

  lemma {:induction false} SplitLast(a: string, separator: char)
    requires separator !in a
    ensures Split(a, separator) == [a]
    decreases |a|
  {
    if a != "" {
      SplitLast(a[1..], separator);
      assert [a[0]] + a[1..] == a;
    }
  }

  lemma {:induction false} SplitLengths(s: string, separator: char)
    ensures |s| + 1 == TotalLength(Split(s, separator)) + |Split(s, separator)|
    ensures forall c | c in s :: c == separator || exists part | part in Split(s, separator) :: c in part
    decreases |s|
  {
    if s != "" {
      SplitLengths(s[1..], separator);
      var rest := Split(s[1..], separator);
      if s[0] != separator {
        assert ([[s[0]] + rest[0]] + rest[1..])[1..] == rest[1..];
        assert rest == [rest[0]] + rest[1..];
        assert Split(s, separator) == [[s[0]] + rest[0]] + rest[1..];
      } else {
        assert ([""] + rest)[1..] == rest;
      }
      forall c | c in s && c != separator ensures exists part | part in Split(s, separator) :: c in part {
        if c == s[0] {
          assert c in Split(s, separator)[0];
        } else {
          assert s == [s[0]] + s[1..];
          var part :| part in rest && c in part;
          if s[0] != separator && part == rest[0] {
            assert c in Split(s, separator)[0];
          } else {
            assert part in Split(s, separator);
          }
        }
      }
    }
  }

  function TotalLength(parts: seq<string>): nat {
    if parts == [] then 0 else |parts[0]| + TotalLength(parts[1..])
  }

  lemma {:induction false} ShortParts(parts: seq<string>)
    requires forall part | part in parts :: |part| <= 3
    ensures TotalLength(parts) <= 3 * |parts|
    decreases |parts|
  {
    if parts != [] {
      assert parts[0] in parts;
      ShortParts(parts[1..]);
    }
  }

  lemma Ipv4IsPlain(host: string)
    requires IsIpv4(host)
    ensures 0 < |host| <= 15 && forall c | c in host :: IsUnreserved(c)
  {
    hide Digits, Split;
    var parts := Split(host, '.');
    SplitLengths(host, '.');
    ShortParts(parts);
    EmptySplit('.');
  }

  /** The addresses that are accepted are exactly four numbers up to 255, of one to three digits, with dots
      between them. */
  lemma Ipv4Iff(value: string)
    ensures IsIpv4(value) <==>
      exists a, b, c, d :: IsOctet(a) && IsOctet(b) && IsOctet(c) && IsOctet(d) && value == Dotted(a, b, c, d)
  {
    hide Digits, Split;
    var parts := Split(value, '.');
    if IsIpv4(value) {
      SplitJoins(value, '.');
      FourJoined(parts);
      assert parts[0] in parts && parts[1] in parts && parts[2] in parts && parts[3] in parts;
      assert value == Dotted(parts[0], parts[1], parts[2], parts[3]);
    }
    forall a, b, c, d | IsOctet(a) && IsOctet(b) && IsOctet(c) && IsOctet(d) && value == Dotted(a, b, c, d)
      ensures IsIpv4(value)
    {
      DottedSplits(a, b, c, d);
    }
  }

  function Dotted(a: string, b: string, c: string, d: string): string {
    a + ("." + (b + ("." + (c + ("." + d)))))
  }

  function Joined(parts: seq<string>, separator: char): string
    requires parts != []
  {
    if |parts| == 1 then parts[0] else parts[0] + ([separator] + Joined(parts[1..], separator))
  }

  lemma {:induction false} SplitJoins(s: string, separator: char)
    ensures Joined(Split(s, separator), separator) == s
    decreases |s|
  {
    if s != "" {
      var rest := Split(s[1..], separator);
      SplitJoins(s[1..], separator);
      assert s == [s[0]] + s[1..];
      if s[0] == separator {
        assert ([""] + rest)[1..] == rest;
      } else {
        var all := [[s[0]] + rest[0]] + rest[1..];
        assert all[1..] == rest[1..];
      }
    }
  }

  lemma FourJoined(parts: seq<string>)
    requires |parts| == 4
    ensures Joined(parts, '.') == Dotted(parts[0], parts[1], parts[2], parts[3])
  {
    assert parts[1..][1..] == parts[2..] && parts[2..][1..] == parts[3..] && |parts[3..]| == 1;
    assert Joined(parts[3..], '.') == parts[3];
    assert Joined(parts[2..], '.') == parts[2] + ("." + parts[3]);
    assert Joined(parts[1..], '.') == parts[1] + ("." + (parts[2] + ("." + parts[3])));
  }

  lemma {:induction false} UnsplitPart(s: string, separator: char)
    requires separator !in s
    ensures Split(s, separator) == [s]
    decreases |s|
  {
    if s != "" {
      UnsplitPart(s[1..], separator);
      assert s == [s[0]] + s[1..];
    }
  }

  lemma OctetHasNoDot(part: string)
    requires IsOctet(part)
    ensures '.' !in part
  {
    hide Digits;
  }

  lemma DottedSplits(a: string, b: string, c: string, d: string)
    requires IsOctet(a) && IsOctet(b) && IsOctet(c) && IsOctet(d)
    ensures IsIpv4(Dotted(a, b, c, d))
  {
    OctetHasNoDot(a);
    OctetHasNoDot(b);
    OctetHasNoDot(c);
    OctetHasNoDot(d);
    hide Split, Digits, IsOctet;
    SplitFirst(a, b + ("." + (c + ("." + d))), '.');
    SplitFirst(b, c + ("." + d), '.');
    SplitFirst(c, d, '.');
    UnsplitPart(d, '.');
    assert Split(Dotted(a, b, c, d), '.') == [a] + ([b] + ([c] + [d]));
  }

  lemma EmptySplit(separator: char)
    ensures Split("", separator) == [""]
  {
  }

  // ----- the fields -----

  lemma PortReads(port: nat)
    requires port <= 65535
    ensures Atoi(Decimal(port)) == Some(port) && 0 < |Decimal(port)| <= 5
    ensures forall c | c in Decimal(port) :: IsDigit(c)
  {
    hide Decimal, Power, Digits, Atoi;
    DecimalReads(port);
    PowerOfFive();
    DecimalIsShort(port, 5);
    DigitsRead(Decimal(port));
  }

  lemma {:induction false} EncodedIsPlain(data: seq<Byte>)
    ensures |Base64.Encode(data, true, false)| == (4 * |data| + 2) / 3
    ensures forall c | c in Base64.Encode(data, true, false) ::
      65 <= c <= 90 || 97 <= c <= 122 || 48 <= c <= 57 || c == 45 || c == 95
    decreases |data|
  {
    if |data| >= 3 {
      EncodedIsPlain(data[3..]);
    }
  }

  lemma DigestReads(digest: seq<Byte>)
    ensures DecodeDigest(DigestText(digest)) == Some(digest)
    ensures |DigestText(digest)| == (4 * |digest| + 2) / 3
    ensures forall c | c in DigestText(digest) :: IsUnreserved(c)
  {
    var encoded := Base64.Encode(digest, true, false);
    EncodedIsPlain(digest);
    Base64.RoundTrip(digest, true, false, Base64.Optional);
    hide Base64.Encode, Base64.Decode;
    assert Codes(Characters(encoded)) == encoded;
    forall c | c in DigestText(digest) ensures IsUnreserved(c) {
      var i :| 0 <= i < |Characters(encoded)| && Characters(encoded)[i] == c;
      assert encoded[i] in encoded;
    }
  }

  predicate IsHex(s: string) {
    |s| == 64 && forall c | c in s :: '0' <= c <= '9' || 'A' <= c <= 'F' || 'a' <= c <= 'f'
  }

  lemma FingerprintReads(fingerprint: string)
    requires IsHex(fingerprint)
    ensures IsFingerprint(Upper(fingerprint))
    ensures Upper(Upper(fingerprint)) == Upper(fingerprint)
  {
    var upper := Upper(fingerprint);
    forall c | c in upper ensures '0' <= c <= '9' || 'A' <= c <= 'F' {
      var i :| 0 <= i < |upper| && upper[i] == c;
      assert fingerprint[i] in fingerprint;
    }
    assert forall i | 0 <= i < |upper| :: upper[i] in upper;
    assert Upper(upper) == upper;
  }

  // ----- a whole reference -----

  /** A segment of the path: unreserved characters, at least one. */
  predicate IsSegment(s: string) {
    s != "" && forall c | c in s :: IsUnreserved(c)
  }

  function PathOf(segments: seq<string>): string {
    if segments == [] then "" else "/" + segments[0] + PathOf(segments[1..])
  }

  lemma {:induction false} PathSplits(segments: seq<string>)
    requires segments != [] && forall s | s in segments :: IsSegment(s)
    ensures PlainPath(PathOf(segments)) && Split(PathOf(segments)[1..], '/') == segments
    ensures |PathOf(segments)| >= 2 && PathOf(segments)[|PathOf(segments)| - 1] != '/' && PathOf(segments)[1] != '/'
    decreases |segments|
  {
    assert segments[0] in segments && segments == [segments[0]] + segments[1..];
    var first := segments[0];
    assert '/' !in first;
    assert first[0] in first && first[|first| - 1] in first;
    var rest := PathOf(segments[1..]);
    assert PathOf(segments)[1..] == first + rest;
    if |segments| == 1 {
      assert rest == "" && first + rest == first;
      SplitLast(first, '/');
    } else {
      PathSplits(segments[1..]);
      assert rest == ['/'] + rest[1..];
      SplitFirst(first, rest[1..], '/');
    }
  }

  lemma NothingToTrim(s: string, drop: char -> bool)
    requires s != "" && !drop(s[0]) && !drop(s[|s| - 1])
    ensures Trim(s, drop) == s
  {
  }

  lemma PathTrims(path: string)
    requires |path| >= 2 && path[0] == '/' && path[1] != '/' && path[|path| - 1] != '/'
    ensures Trim(path, c => c == '/') == path[1..]
  {
    var drop := (c: char) => c == '/';
    assert Trim(path, drop) == Trim(path[1..], drop);
    NothingToTrim(path[1..], drop);
  }

  lemma WrittenReads(segments: seq<string>, parse: UriParser)
    requires segments != [] && (forall s | s in segments :: IsSegment(s)) && ReadsPlainPaths(parse)
    requires |"httpcapture://p" + PathOf(segments)| <= 1024
    ensures DecodeReference("httpcapture://p" + PathOf(segments), parse) == DecodeSegments(segments)
  {
    hide DecodeSegments, Trim, Split, IsSegment, PathOf;
    var path := PathOf(segments);
    PathSplits(segments);
    PathTrims(path);
    var value := "httpcapture://p" + path;
    assert value[0] == 'h' && value[|value| - 1] == path[|path| - 1];
    assert path[|path| - 1] in path;
    NothingToTrim(value, IsSpace);
  }

  lemma PathOfFive(a: string, b: string, c: string, d: string, e: string)
    ensures PathOf([a, b, c, d, e]) == "/" + a + "/" + b + "/" + c + "/" + d + "/" + e
  {
    PathOfFour(b, c, d, e);
    assert [a, b, c, d, e][1..] == [b, c, d, e];
  }

  lemma PathOfFour(b: string, c: string, d: string, e: string)
    ensures PathOf([b, c, d, e]) == "/" + b + "/" + c + "/" + d + "/" + e
  {
    assert [b, c, d, e][1..] == [c, d, e] && [c, d, e][1..] == [d, e] && [d, e][1..] == [e] && [e][1..] == [];
    assert PathOf([]) == "";
    assert PathOf([e]) == "/" + e;
    assert PathOf([d, e]) == "/" + d + ("/" + e);
    assert PathOf([c, d, e]) == "/" + c + ("/" + d + ("/" + e));
  }

  lemma SameUrl(scheme: string, host: string, port: nat, token: string)
    ensures DownloadUrl(scheme, host, port, token) == UrlText(Endpoint(scheme, host, Decimal(port), "/p/" + token))
  {
    hide Decimal;
  }

  lemma {:induction false} TrimOf(a: string, m: string, b: string, drop: char -> bool)
    requires (forall c | c in a + b :: drop(c)) && m != "" && !drop(m[0]) && !drop(m[|m| - 1])
    ensures Trim(a + m + b, drop) == m
    decreases |a| + |b|
  {
    var s := a + m + b;
    if a != "" {
      assert a[0] in a + b && s[0] == a[0] && s[1..] == a[1..] + m + b;
      TrimOf(a[1..], m, b, drop);
    } else if b != "" {
      assert b[|b| - 1] in a + b && s[|s| - 1] == b[|b| - 1] && s[..|s| - 1] == a + m + b[..|b| - 1];
      TrimOf(a, m, b[..|b| - 1], drop);
    } else {
      assert s == m;
    }
  }

  /** White space around a pasted reference makes no difference. */
  lemma OuterSpaceIsIgnored(a: string, reference: string, b: string, parse: UriParser)
    requires forall c | c in a + b :: IsSpace(c)
    requires reference != "" && !IsSpace(reference[0]) && !IsSpace(reference[|reference| - 1])
    ensures DecodeReference(a + reference + b, parse) == DecodeReference(reference, parse)
  {
    TrimOf(a, reference, b, IsSpace);
    TrimOf("", reference, "", IsSpace);
    assert "" + reference + "" == reference;
    hide Trim, IsSpace, Split, DecodeSegments;
  }

  /** A version 3 reference leads back to the download URL and the digest it was printed from. */
  lemma ReferenceRoundTrip(host: string, port: nat, token: string, digest: seq<Byte>, parse: UriParser)
    requires IsIpv4(host) && host != "0.0.0.0" && 1 <= port <= 65535 && IsToken(token) && |digest| == 32
    requires ReadsPlainPaths(parse)
    ensures
      var printed := EncodePairingReference(Endpoint("http", host, Decimal(port), "/p/" + token), digest);
      && printed.Some? && |printed.value| <= 1024
      && DecodeReference(printed.value, parse)
         == Reference(UrlText(Endpoint("http", host, Decimal(port), "/p/" + token)), DigestText(digest), None)
  {
    hide IsIpv4, Decimal, DigestText, DecodeDigest, Atoi, Digits, ReadsPlainPaths,
      DecodeReference, PathOf;
    var text := DigestText(digest);
    Ipv4IsPlain(host);
    PortReads(port);
    DigestReads(digest);
    SameUrl("http", host, port, token);
    var segments := ["3", host, Decimal(port), token, text];
    assert ("/p/" + token)[3..] == token;
    PathOfFive("3", host, Decimal(port), token, text);
    var printed := EncodePairingReference(Endpoint("http", host, Decimal(port), "/p/" + token), digest).value;
    assert printed == "httpcapture://p" + PathOf(segments);
    WrittenReads(segments, parse);
  }

  /** A version 4 reference also carries the fingerprint, in upper case. */
  lemma ControlReferenceRoundTrip(
    host: string, port: nat, token: string, fingerprint: string, digest: seq<Byte>, parse: UriParser)
    requires IsIpv4(host) && host != "0.0.0.0" && 1 <= port <= 65535 && IsToken(token) && |digest| == 32
    requires IsHex(fingerprint) && ReadsPlainPaths(parse)
    ensures
      var printed := EncodeControlPairingReference(Endpoint("https", host, Decimal(port), "/p/" + token), fingerprint,
        digest);
      && printed.Some? && |printed.value| <= 1024
      && DecodeReference(printed.value, parse)
        == Reference(UrlText(Endpoint("https", host, Decimal(port), "/p/" + token)), DigestText(digest),
             Some(Upper(fingerprint)))
  {
    hide IsIpv4, Decimal, DigestText, DecodeDigest, Atoi, Digits, ReadsPlainPaths, DecodeReference, PathOf, UrlText,
      DownloadUrl, EncodeControlPairingReference;
    var text, upper := DigestText(digest), Upper(fingerprint);
    Ipv4IsPlain(host);
    PortReads(port);
    DigestReads(digest);
    FingerprintReads(fingerprint);
    SameUrl("https", host, port, token);
    ControlPrinted(host, Decimal(port), token, fingerprint, digest);
    hide Upper;
    WrittenReads(["4", host, Decimal(port), token, upper, text], parse);
  }

  lemma ControlPrinted(host: string, port: string, token: string, fingerprint: string, digest: seq<Byte>)
    requires host != "" && port != "" && token != ""
    ensures
      var path := PathOf(["4", host, port, token, Upper(fingerprint), DigestText(digest)]);
      && EncodeControlPairingReference(Endpoint("https", host, port, "/p/" + token), fingerprint, digest)
         == Some("httpcapture://p" + path)
      && |path| == 7 + |host| + |port| + |token| + |fingerprint| + |DigestText(digest)|
  {
    var upper, text := Upper(fingerprint), DigestText(digest);
    assert |upper| == |fingerprint|;
    hide DigestText, Upper, PathOf;
    assert ("/p/" + token)[3..] == token;
    PathOfFive(host, port, token, upper, text);
    PathOfMore("4", [host, port, token, upper, text]);
    assert ["4", host, port, token, upper, text] == ["4"] + [host, port, token, upper, text];
    SameText(host, port, token, upper, text);
  }

  lemma SameText(host: string, port: string, token: string, upper: string, text: string)
    ensures "httpcapture://p" + ("/" + "4" + ("/" + host + "/" + port + "/" + token + "/" + upper + "/" + text))
      == "httpcapture://p/4/" + host + "/" + port + "/" + token + "/" + upper + "/" + text
  {
  }

  lemma PathOfMore(a: string, rest: seq<string>)
    ensures PathOf([a] + rest) == "/" + a + PathOf(rest)
  {
    assert ([a] + rest)[1..] == rest;
  }

  /** The check of a downloaded bundle: its digest is the one in the reference. */
  predicate BundleAccepted(bundle: seq<Byte>, sha256: seq<Byte> -> seq<Byte>, expected: string) {
    DecodeDigest(expected) == Some(sha256(bundle))
  }

  /** Behind a printed reference only a bundle with the printed digest is accepted. */
  lemma OnlyThePrintedBundle(bundle: seq<Byte>, other: seq<Byte>, sha256: seq<Byte> -> seq<Byte>)
    ensures BundleAccepted(other, sha256, DigestText(sha256(bundle))) <==> sha256(other) == sha256(bundle)
  {
    DigestReads(sha256(bundle));
    hide DecodeDigest, DigestText;
  }
}
