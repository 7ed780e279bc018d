/** UTF-8 validity (section 4 of RFC 3629) and cutting text to a number of bytes
    (cli/web_index.go:466-471, 871-877, 891-918, 1090-1099). */
module Utf8 {
  import opened Bytes

  predicate IsTail(b: Byte) {
    0x80 <= b <= 0xBF
  }

  /** Length of the well-formed character that s begins with; 0 when there is none. */
  function CharLength(s: seq<Byte>): (n: nat)
    ensures n <= |s| && n <= 4
  {
    if |s| >= 1 && s[0] <= 0x7F then 1
    else if |s| >= 2 && 0xC2 <= s[0] <= 0xDF && IsTail(s[1]) then 2
    else if |s| >= 3 && IsTail(s[2]) && (
      || (s[0] == 0xE0 && 0xA0 <= s[1] <= 0xBF)
      || (0xE1 <= s[0] <= 0xEC && IsTail(s[1]))
      || (s[0] == 0xED && 0x80 <= s[1] <= 0x9F)
      || (0xEE <= s[0] <= 0xEF && IsTail(s[1]))) then 3
    else if |s| >= 4 && IsTail(s[2]) && IsTail(s[3]) && (
      || (s[0] == 0xF0 && 0x90 <= s[1] <= 0xBF)
      || (0xF1 <= s[0] <= 0xF3 && IsTail(s[1]))
      || (s[0] == 0xF4 && 0x80 <= s[1] <= 0x8F)) then 4
    else 0
  }

  predicate Valid(s: seq<Byte>) {
    s == [] || (CharLength(s) > 0 && Valid(s[CharLength(s)..]))
  }

  /** A character is recognised by its own bytes alone: not by what follows, and by no shorter part. */
  lemma CharIsPrefixFree(s: seq<Byte>, m: nat)
    requires m <= |s| && CharLength(s) > 0
    ensures CharLength(s[..m]) == if m >= CharLength(s) then CharLength(s) else 0
  {
  }

  /** Going through a valid text from the front, every fourth byte at the latest is a boundary. */
  lemma {:induction false} BoundaryNear(s: seq<Byte>, m: nat)
    returns (k: nat)
    requires Valid(s) && m <= |s|
    ensures k <= m <= k + 3 && Valid(s[..k])
    decreases |s|
  {
    hide CharLength;
    if m == 0 || s == [] {
      k := 0;
    } else {
      var n := CharLength(s);
      if m < n {
        k := 0;
      } else {
        var j := BoundaryNear(s[n..], m - n);
        k := n + j;
        CharIsPrefixFree(s, k);
        assert s[..k][n..] == s[n..][..j];
      }
    }
  }

  /** The loop of truncateUTF8. Of every text it returns the longest valid part of at most `maximum`
      bytes (or all of it, if it is short enough); of valid text it drops at most three bytes. */
  method TruncateUtf8(value: seq<Byte>, maximum: nat) returns (truncated: seq<Byte>, ghost dropped: nat)
    ensures |truncated| <= maximum && truncated <= value
    ensures |value| <= maximum ==> truncated == value && dropped == 0
    ensures |value| > maximum ==> Valid(truncated) && |truncated| + dropped == maximum
    ensures |value| > maximum ==> forall k | |truncated| < k <= maximum :: !Valid(value[..k])
    ensures Valid(value) ==> Valid(truncated) && dropped <= 3
  {
    hide CharLength, Valid;
    EmptyIsValid();
    dropped := 0;
    if |value| <= maximum {
      return value, 0;
    }
    truncated := value[..maximum];
    while !Valid(truncated) && |truncated| > 0
      invariant |truncated| <= maximum && truncated == value[..|truncated|]
      invariant |truncated| + dropped == maximum
      invariant forall k | |truncated| < k <= maximum :: !Valid(value[..k])
    {
      truncated := truncated[..|truncated| - 1];
      dropped := dropped + 1;
    }
    if Valid(value) {
      var k := BoundaryNear(value, maximum);
    }
  }

  lemma EmptyIsValid()
    ensures Valid([])
  {
  }

  /** There is only one longest valid part, so what the loop returns is determined. */
  function LongestValid(value: seq<Byte>, maximum: nat): (r: seq<Byte>)
    requires maximum <= |value|
    ensures Valid(r) && |r| <= maximum && r == value[..|r|]
    ensures forall k | |r| < k <= maximum :: !Valid(value[..k])
  {
    if Valid(value[..maximum]) then value[..maximum]
    else if maximum == 0 then []
    else LongestValid(value, maximum - 1)
  }

  // ----- the two users -----

  const MAX_SEARCH: nat := 262_144  // 256 << 10
  const MAX_DISPLAY: nat := 524_288 // 512 << 10

  /** Body text as it goes into the search index. */
  method PayloadForSearch(encoding: string, data: seq<Byte>) returns (text: seq<Byte>)
    ensures |text| <= MAX_SEARCH && text <= data
    ensures encoding != "utf8" ==> text == []
    ensures Valid(data) ==> Valid(text)
    ensures encoding == "utf8" && Valid(data) ==> |text| == |data| || |text| + 3 >= MAX_SEARCH
  {
    hide CharLength, Valid;
    EmptyIsValid();
    if encoding != "utf8" || data == [] {
      return [];
    }
    ghost var dropped;
    text, dropped := TruncateUtf8(data, MAX_SEARCH);
  }

  /** The decoded body is read up to one byte over the limit and cut back to a valid text. */
  method LimitDecoded(stream: seq<Byte>) returns (decoded: seq<Byte>, cut: bool)
    ensures |decoded| <= MAX_DISPLAY && decoded <= stream
    ensures cut <==> |stream| > MAX_DISPLAY
    ensures !cut ==> decoded == stream
    ensures cut ==> decoded == LongestValid(stream, MAX_DISPLAY)
    ensures Valid(stream) ==> Valid(decoded) && (cut ==> |decoded| + 3 >= MAX_DISPLAY)
  {
    hide CharLength, Valid, LongestValid;
    decoded := if |stream| <= MAX_DISPLAY + 1 then stream else stream[..MAX_DISPLAY + 1];
    cut := |decoded| > MAX_DISPLAY;
    if |decoded| > MAX_DISPLAY {
      assert decoded[..MAX_DISPLAY] == stream[..MAX_DISPLAY];
      decoded := decoded[..MAX_DISPLAY];
      LongestIsUnique(stream, MAX_DISPLAY);
      while !Valid(decoded) && |decoded| > 0
        invariant |decoded| <= MAX_DISPLAY && decoded == stream[..|decoded|]
        invariant forall k | |decoded| < k <= MAX_DISPLAY :: !Valid(stream[..k])
      {
        decoded := decoded[..|decoded| - 1];
      }
      EmptyIsValid();
      if Valid(stream) {
        var k := BoundaryNear(stream, MAX_DISPLAY);
      }
    }
  }

  lemma LongestIsUnique(value: seq<Byte>, maximum: nat)
    requires maximum <= |value|
    ensures forall n: nat | n <= maximum && Valid(value[..n]) && (forall k | n < k <= maximum :: !Valid(value[..k])) ::
      value[..n] == LongestValid(value, maximum)
  {
    hide LongestValid, Valid;
    forall n: nat | n <= maximum && Valid(value[..n]) && (forall k | n < k <= maximum :: !Valid(value[..k]))
      ensures value[..n] == LongestValid(value, maximum)
    {
      var m := |LongestValid(value, maximum)|;
      assert m == n;
    }
  }
}
