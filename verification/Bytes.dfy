/** Byte strings as the file code sees them: newline search and Go's `bytes.TrimSpace`. */
module Bytes {
  type Byte = b: int | 0 <= b < 256

  const NEWLINE: Byte := 10

  /** Position of the first newline at or after p, or |s| when there is none. */
  function NextNewline(s: seq<Byte>, p: nat): (k: nat)
    requires p <= |s|
    ensures p <= k <= |s|
    ensures k < |s| ==> s[k] == NEWLINE
    decreases |s| - p
  {
    if p == |s| || s[p] == NEWLINE then p else NextNewline(s, p + 1)
  }

  lemma {:induction false} NoneBefore(s: seq<Byte>, p: nat)
    requires p <= |s|
    ensures forall i :: p <= i < NextNewline(s, p) ==> s[i] != NEWLINE
    decreases |s| - p
  {
    if p < |s| && s[p] != NEWLINE {
      NoneBefore(s, p + 1);
    }
  }

  lemma {:induction false} NextNewlineUnique(s: seq<Byte>, p: nat, k: nat)
    requires p <= k <= |s|
    requires k < |s| ==> s[k] == NEWLINE
    requires forall i :: p <= i < k ==> s[i] != NEWLINE
    ensures NextNewline(s, p) == k
    decreases k - p
  {
    if p < k {
      NextNewlineUnique(s, p + 1, k);
    }
  }

  /** The three-byte UTF-8 encodings of U+1680, U+2000..200A, U+2028, U+2029, U+202F, U+205F, U+3000. */
  predicate IsWideSpace(a: Byte, b: Byte, c: Byte) {
    || (a == 0xE1 && b == 0x9A && c == 0x80)
    || (a == 0xE2 && b == 0x80 && (0x80 <= c <= 0x8A || c == 0xA8 || c == 0xA9 || c == 0xAF))
    || (a == 0xE2 && b == 0x81 && c == 0x9F)
    || (a == 0xE3 && b == 0x80 && c == 0x80)
  }

  /** Length of the white-space rune that s begins with; 0 when there is none. */
  function LeadingSpace(s: seq<Byte>): (n: nat)
    ensures n <= |s|
  {
    if |s| >= 1 && (9 <= s[0] <= 13 || s[0] == 32) then 1
    else if |s| >= 2 && s[0] == 0xC2 && (s[1] == 0x85 || s[1] == 0xA0) then 2
    else if |s| >= 3 && IsWideSpace(s[0], s[1], s[2]) then 3
    else 0
  }

  /** Length of the white-space rune that s ends with; 0 when there is none. */
  function TrailingSpace(s: seq<Byte>): (n: nat)
    ensures n <= |s|
  {
    var m := |s|;
    if m >= 1 && (9 <= s[m - 1] <= 13 || s[m - 1] == 32) then 1
    else if m >= 2 && s[m - 2] == 0xC2 && (s[m - 1] == 0x85 || s[m - 1] == 0xA0) then 2
    else if m >= 3 && IsWideSpace(s[m - 3], s[m - 2], s[m - 1]) then 3
    else 0
  }

  function TrimLeft(s: seq<Byte>): (r: seq<Byte>)
    ensures |r| <= |s| && r == s[|s| - |r|..]
    ensures LeadingSpace(r) == 0
  {
    if LeadingSpace(s) == 0 then s else TrimLeft(s[LeadingSpace(s)..])
  }

  function TrimRight(s: seq<Byte>): (r: seq<Byte>)
    ensures |r| <= |s| && r == s[..|r|]
    ensures TrailingSpace(r) == 0
  {
    if TrailingSpace(s) == 0 then s else TrimRight(s[..|s| - TrailingSpace(s)])
  }

  function TrimSpace(s: seq<Byte>): (r: seq<Byte>)
    ensures |r| <= |s|
    ensures TrailingSpace(r) == 0
  {
    TrimRight(TrimLeft(s))
  }

  /** A final newline never changes what is left after trimming. */
  lemma {:induction false} TrimLeftNewline(s: seq<Byte>)
    ensures TrimLeft(s + [NEWLINE]) == if TrimLeft(s) == [] then [] else TrimLeft(s) + [NEWLINE]
    decreases |s|
  {
    var t := s + [NEWLINE];
    if s == [] {
      assert t[1..] == [];
    } else {
      var n := LeadingSpace(s);
      assert LeadingSpace(t) == n;
      if n > 0 {
        assert t[n..] == s[n..] + [NEWLINE];
        TrimLeftNewline(s[n..]);
      }
    }
  }

  lemma TrimSpaceNewline(s: seq<Byte>)
    ensures TrimSpace(s + [NEWLINE]) == TrimSpace(s)
  {
    TrimLeftNewline(s);
    var u := TrimLeft(s);
    if u != [] {
      assert (u + [NEWLINE])[..|u|] == u;
      assert TrailingSpace(u + [NEWLINE]) == 1;
    }
  }

  lemma TrimSpaceEdges(s: seq<Byte>)
    ensures LeadingSpace(TrimSpace(s)) == 0
    ensures TrimSpace(TrimSpace(s)) == TrimSpace(s)
  {
    var u := TrimLeft(s);
    var r := TrimRight(u);
    assert LeadingSpace(r) > 0 ==> LeadingSpace(u) > 0;
    assert TrimLeft(r) == r;
  }

  /** One whole line: a newline at the end and nowhere else. */
  predicate IsLine(line: seq<Byte>) {
    line != [] && NextNewline(line, 0) == |line| - 1
  }

  lemma TrimKeeps(s: seq<Byte>)
    requires NEWLINE !in s
    ensures NEWLINE !in TrimSpace(s)
  {
    var u := TrimLeft(s);
    assert NEWLINE !in u;
  }

  /** A trimmed line has no newline left in it; with a newline put back it is a line again. */
  lemma TrimmedLine(line: seq<Byte>)
    requires IsLine(line)
    ensures IsLine(TrimSpace(line) + [NEWLINE])
  {
    var body := line[..|line| - 1];
    assert line == body + [NEWLINE];
    TrimSpaceNewline(body);
    NoneBefore(line, 0);
    assert NEWLINE !in body;
    TrimKeeps(body);
    var r := TrimSpace(body);
    NextNewlineUnique(r + [NEWLINE], 0, |r|);
  }
}
