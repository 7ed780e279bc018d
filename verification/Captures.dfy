/** The captured records that the proxy writes and the index reads. */
module Captures {
  import opened Bytes

  datatype Option<+T> = None | Some(value: T)

  datatype Payload = Payload(
    declaredSize: int, capturedSize: int, encoding: string,
    data: seq<Byte>, truncated: bool, readError: string)

  /** One record. `remainder` stands for the fields that no modelled code looks at. */
  datatype Transaction = Transaction(
    schemaVersion: int, timestampMillis: int, durationMillis: int, clientAddress: string,
    requestBody: Payload, responseBody: Payload, remainder: string)

  const SCHEMA_VERSION := 1

  /** JSON decoding is left abstract: a function from the text of a line to a record. */
  type Parser = seq<Byte> -> Option<Transaction>

  /** What is used of JSON decoding (section 2 of RFC 8259): white space after the value is ignored,
      and a text that decodes has nothing but JSON white space around the value, so that trimming it
      leaves the same value. */
  ghost predicate IgnoresOuterSpace(parse: Parser) {
    && (forall text {:trigger parse(text + [NEWLINE])} :: parse(text + [NEWLINE]) == parse(text))
    && (forall text {:trigger parse(TrimSpace(text))} :: parse(text).Some? ==> parse(TrimSpace(text)) == parse(text))
  }

  lemma TrimKeepsRecord(parse: Parser, text: seq<Byte>)
    requires IgnoresOuterSpace(parse) && parse(text).Some?
    ensures parse(TrimSpace(text)) == parse(text)
  {
    hide TrimSpace;
  }

  lemma NewlineKeepsRecord(parse: Parser, text: seq<Byte>)
    requires IgnoresOuterSpace(parse)
    ensures parse(text + [NEWLINE]) == parse(text)
  {
    hide TrimSpace;
  }

  predicate ClientAddressMatches(value: string, expected: string) {
    value == expected || expected + ":" <= value || "/" + expected + ":" <= value
  }

  /** An address matches the expected one if it is that text, or a host and something behind a colon, with
      or without a slash in front, whose host is that text. Neither has a colon of its own. */
  lemma ClientAddressIff(host: string, rest: string, expected: string)
    requires ':' !in host && ':' !in expected
    requires (host != "" ==> host[0] != '/') && (expected != "" ==> expected[0] != '/')
    ensures ClientAddressMatches(host, expected) <==> host == expected
    ensures ClientAddressMatches(host + ":" + rest, expected) <==> host == expected
    ensures ClientAddressMatches("/" + host + ":" + rest, expected) <==> host == expected
  {
    ColonEnds(host, rest, expected);
    ColonEnds("/" + host, rest, expected);
    ColonEnds(host, rest, "/" + expected);
    ColonEnds("/" + host, rest, "/" + expected);
    if "/" + host == "/" + expected {
      assert ("/" + host)[1..] == host && ("/" + expected)[1..] == expected;
    }
    NoColon(host, expected);
    NoColon(host, "/" + expected);
  }

  lemma NoColon(host: string, expected: string)
    requires ':' !in host
    ensures !(expected + ":" <= host)
  {
    assert (expected + ":")[|expected|] == ':';
    assert forall i | 0 <= i < |host| :: host[i] in host;
  }

  lemma ColonEnds(host: string, rest: string, expected: string)
    requires ':' !in host && ':' !in expected
    ensures expected + ":" <= host + ":" + rest <==> host == expected
    ensures host + ":" + rest != expected
  {
    var value := host + ":" + rest;
    assert value[|host|] == ':';
    assert forall i | 0 <= i < |host| :: value[i] == host[i] && host[i] in host;
    assert forall i | 0 <= i < |expected| :: expected[i] in expected && (expected + ":")[i] == expected[i];
    assert (expected + ":")[|expected|] == ':';
    assert value[..|host| + 1] == host + ":";
    assert |host| == |expected| && expected + ":" <= value ==> host == value[..|host|] == expected;
  }
}
