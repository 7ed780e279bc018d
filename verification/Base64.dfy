/** Base 64 as Go and Java use it here (sections 4 and 5 of RFC 4648). */
module Base64 {
  import opened Bytes
  import opened Captures

  type Sextet = v: int | 0 <= v < 64

  /** `url` picks the URL-safe alphabet. */
  function Symbol(v: Sextet, url: bool): (c: Byte)
    ensures c != 61 && c != 10 && c != 13
  {
    if v < 26 then 65 + v
    else if v < 52 then 97 + (v - 26)
    else if v < 62 then 48 + (v - 52)
    else if v == 62 then (if url then 45 else 43)
    else (if url then 95 else 47)
  }

  function Value(c: Byte, url: bool): Option<Sextet> {
    if 65 <= c <= 90 then Some(c - 65)
    else if 97 <= c <= 122 then Some(c - 97 + 26)
    else if 48 <= c <= 57 then Some(c - 48 + 52)
    else if c == (if url then 45 else 43) then Some(62)
    else if c == (if url then 95 else 47) then Some(63)
    else None
  }

  const PAD: Byte := 61

  datatype Padding = Required | Optional

  /** `padded` fills the last group up with '='. */
  function Encode(data: seq<Byte>, url: bool, padded: bool): seq<Byte> {
    if data == [] then []
    else if |data| == 1 then
      [Symbol(data[0] / 4, url), Symbol(data[0] % 4 * 16, url)] + (if padded then [PAD, PAD] else [])
    else if |data| == 2 then
      [Symbol(data[0] / 4, url), Symbol(data[0] % 4 * 16 + data[1] / 16, url), Symbol(data[1] % 16 * 4, url)]
      + (if padded then [PAD] else [])
    else
      [Symbol(data[0] / 4, url), Symbol(data[0] % 4 * 16 + data[1] / 16, url),
       Symbol(data[1] % 16 * 4 + data[2] / 64, url), Symbol(data[2] % 64, url)]
      + Encode(data[3..], url, padded)
  }

  /** Decoding; unused trailing bits are not checked. Go demands the padding, Java's URL decoder takes
      the text with or without it. */
  function Decode(text: seq<Byte>, url: bool, padding: Padding): Option<seq<Byte>> {
    if text == [] then Some([])
    else if |text| < 2 || Value(text[0], url) == None || Value(text[1], url) == None then None
    else
      var a, b := Value(text[0], url).value, Value(text[1], url).value;
      var first := a * 4 + b / 16;
      if text[2..] == (if padding == Required then [PAD, PAD] else []) || text[2..] == [PAD, PAD] then Some([first])
      else if |text| < 3 || Value(text[2], url) == None then None
      else
        var c := Value(text[2], url).value;
        var second := b % 16 * 16 + c / 4;
        if text[3..] == (if padding == Required then [PAD] else []) || text[3..] == [PAD] then Some([first, second])
        else if |text| < 4 || Value(text[3], url) == None then None
        else
          match Decode(text[4..], url, padding)
          case None => None
          case Some(rest) => Some([first, second, c % 4 * 64 + Value(text[3], url).value] + rest)
  }

  lemma SymbolValue(v: Sextet, url: bool)
    ensures Value(Symbol(v, url), url) == Some(v)
  {
  }

  lemma GroupBits(x: Byte, y: Byte, z: Byte)
    ensures x / 4 * 4 + (x % 4 * 16 + y / 16) / 16 == x && x / 4 * 4 + (x % 4 * 16) / 16 == x
    ensures (x % 4 * 16 + y / 16) % 16 * 16 + (y % 16 * 4 + z / 64) / 4 == y
    ensures (x % 4 * 16 + y / 16) % 16 * 16 + (y % 16 * 4) / 4 == y
    ensures (y % 16 * 4 + z / 64) % 4 * 64 + z % 64 == z
  {
  }

  lemma OneByte(x: Byte, url: bool, padded: bool, padding: Padding)
    requires padding == Required ==> padded
    ensures Decode(Encode([x], url, padded), url, padding) == Some([x])
  {
    var text := Encode([x], url, padded);
    GroupBits(x, 0, 0);
    SymbolValue(x / 4, url);
    SymbolValue(x % 4 * 16, url);
    hide Symbol, Value;
    assert text[2..] == if padded then [PAD, PAD] else [];
  }

  lemma TwoBytes(x: Byte, y: Byte, url: bool, padded: bool, padding: Padding)
    requires padding == Required ==> padded
    ensures Decode(Encode([x, y], url, padded), url, padding) == Some([x, y])
  {
    hide *;
    EncodeTwo(x, y, url, padded);
    ThreeSymbols(x / 4, x % 4 * 16 + y / 16, y % 16 * 4, url, padded, padding);
    GroupBits(x, y, 0);
  }

  lemma EncodeTwo(x: Byte, y: Byte, url: bool, padded: bool)
    ensures Encode([x, y], url, padded)
      == [Symbol(x / 4, url), Symbol(x % 4 * 16 + y / 16, url), Symbol(y % 16 * 4, url)]
        + if padded then [PAD] else []
  {
    hide Symbol;
  }

  lemma ThreeSymbols(a: Sextet, b: Sextet, c: Sextet, url: bool, padded: bool, padding: Padding)
    requires padding == Required ==> padded
    ensures
      Decode([Symbol(a, url), Symbol(b, url), Symbol(c, url)] + (if padded then [PAD] else []), url, padding)
      == Some([a * 4 + b / 16, b % 16 * 16 + c / 4])
  {
    var text := [Symbol(a, url), Symbol(b, url), Symbol(c, url)] + if padded then [PAD] else [];
    SymbolValue(a, url);
    SymbolValue(b, url);
    SymbolValue(c, url);
    assert text[2] != PAD;
    hide Symbol, Value;
    assert text[2..][0] != PAD;
    assert text[3..] == if padded then [PAD] else [];
  }

  lemma FourSymbols(a: Sextet, b: Sextet, c: Sextet, d: Sextet, rest: seq<Byte>, url: bool, padding: Padding)
    requires Decode(rest, url, padding).Some?
    ensures
      Decode([Symbol(a, url), Symbol(b, url), Symbol(c, url), Symbol(d, url)] + rest, url, padding)
      == Some([a * 4 + b / 16, b % 16 * 16 + c / 4, c % 4 * 64 + d] + Decode(rest, url, padding).value)
  {
    var text := [Symbol(a, url), Symbol(b, url), Symbol(c, url), Symbol(d, url)] + rest;
    SymbolValue(a, url);
    SymbolValue(b, url);
    SymbolValue(c, url);
    SymbolValue(d, url);
    hide Symbol, Value;
    assert text[2..][0] != PAD && text[3..][0] != PAD;
    assert text[4..] == rest;
  }

  lemma ThreeBytes(x: Byte, y: Byte, z: Byte, rest: seq<Byte>, url: bool, padded: bool, padding: Padding)
    requires Decode(Encode(rest, url, padded), url, padding) == Some(rest)
    ensures Decode(Encode([x, y, z] + rest, url, padded), url, padding) == Some([x, y, z] + rest)
  {
    hide Decode;
    assert ([x, y, z] + rest)[3..] == rest;
    FourSymbols(x / 4, x % 4 * 16 + y / 16, y % 16 * 4 + z / 64, z % 64, Encode(rest, url, padded), url, padding);
    GroupBits(x, y, z);
    hide Symbol;
  }

  lemma NoBytes(url: bool, padded: bool, padding: Padding)
    ensures Decode(Encode([], url, padded), url, padding) == Some([])
  {
  }

  lemma FirstThree(data: seq<Byte>)
    requires |data| >= 3
    ensures data == [data[0], data[1], data[2]] + data[3..]
  {
  }

  /** Decoding an encoding gives the data back. */
  lemma {:induction false} RoundTrip(data: seq<Byte>, url: bool, padded: bool, padding: Padding)
    requires padding == Required ==> padded
    ensures Decode(Encode(data, url, padded), url, padding) == Some(data)
    decreases |data|
  {
    hide *;
    if data == [] {
      NoBytes(url, padded, padding);
    } else if |data| == 1 {
      OneByte(data[0], url, padded, padding);
      assert data == [data[0]];
    } else if |data| == 2 {
      TwoBytes(data[0], data[1], url, padded, padding);
      assert data == [data[0], data[1]];
    } else {
      RoundTrip(data[3..], url, padded, padding);
      ThreeBytes(data[0], data[1], data[2], data[3..], url, padded, padding);
      FirstThree(data);
    }
  }

  /** Go's decoder steps over line breaks wherever they are. */
  function WithoutLineBreaks(text: seq<Byte>): seq<Byte> {
    if text == [] then []
    else if text[0] == 10 || text[0] == 13 then WithoutLineBreaks(text[1..])
    else [text[0]] + WithoutLineBreaks(text[1..])
  }

  function DecodeStd(text: seq<Byte>): Option<seq<Byte>> {
    Decode(WithoutLineBreaks(text), false, Required)
  }

  lemma {:induction false} NoLineBreaks(text: seq<Byte>)
    requires 10 !in text && 13 !in text
    ensures WithoutLineBreaks(text) == text
    decreases |text|
  {
    if text != [] {
      assert text[0] in text;
      NoLineBreaks(text[1..]);
    }
  }

  lemma {:induction false} EncodedHasNoLineBreaks(data: seq<Byte>, url: bool, padded: bool)
    ensures 10 !in Encode(data, url, padded) && 13 !in Encode(data, url, padded)
    decreases |data|
  {
    hide Symbol;
    if |data| >= 3 {
      EncodedHasNoLineBreaks(data[3..], url, padded);
    }
  }

  lemma RoundTripStd(data: seq<Byte>)
    ensures DecodeStd(Encode(data, false, true)) == Some(data)
    ensures data != [] ==> Encode(data, false, true) != []
  {
    EncodedHasNoLineBreaks(data, false, true);
    NoLineBreaks(Encode(data, false, true));
    RoundTrip(data, false, true, Required);
  }
}
