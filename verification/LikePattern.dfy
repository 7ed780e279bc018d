/** `escapeLike` and the LIKE operator it is written for (cli/web_index.go:1101-1105). */
module LikePattern {

  // ----- SQLite's LIKE with ESCAPE '\' -----

  /** LIKE folds the 26 ASCII letters and nothing else. */
  function Fold(c: char): char {
    if 'A' <= c <= 'Z' then c - 'A' + 'a' else c
  }

  predicate SameFolded(a: char, b: char) {
    Fold(a) == Fold(b)
  }

  /** x LIKE p ESCAPE '\'. A pattern that ends in the escape character matches nothing. */
  predicate Like(p: string, x: string)
    decreases |p|, |x|
  {
    if p == "" then x == ""
    else if p[0] == '%' then Like(p[1..], x) || (x != "" && Like(p, x[1..]))
    else if x == "" then false
    else if p[0] == '\\' then |p| >= 2 && SameFolded(p[1], x[0]) && Like(p[2..], x[1..])
    else if p[0] == '_' then Like(p[1..], x[1..])
    else SameFolded(p[0], x[0]) && Like(p[1..], x[1..])
  }

  // ----- what is meant: plain text occurring in plain text -----

  /** q begins at the start of x, up to ASCII case. */
  predicate StartsFolded(q: string, x: string) {
    |q| <= |x| && forall i :: 0 <= i < |q| ==> SameFolded(q[i], x[i])
  }

  predicate EqualFolded(q: string, x: string) {
    |q| == |x| && StartsFolded(q, x)
  }

  predicate ContainsFolded(x: string, q: string) {
    exists k | 0 <= k <= |x| :: StartsFolded(q, x[k..])
  }

  // ----- the escaping -----

  /** strings.ReplaceAll for a one-character old text. */
  function ReplaceAll(s: string, from: char, to: string): string {
    if s == "" then ""
    else (if s[0] == from then to else [s[0]]) + ReplaceAll(s[1..], from, to)
  }

  function EscapeLike(value: string): string {
    ReplaceAll(ReplaceAll(ReplaceAll(value, '\\', "\\\\"), '%', "\\%"), '_', "\\_")
  }

  /** One pass that puts a backslash before each of the three special characters. */
  function EscapeEach(value: string): string {
    if value == "" then ""
    else
      (if value[0] == '\\' || value[0] == '%' || value[0] == '_' then ['\\', value[0]] else [value[0]])
      + EscapeEach(value[1..])
  }

  lemma {:induction false} ReplaceAllAppend(a: string, b: string, from: char, to: string)
    ensures ReplaceAll(a + b, from, to) == ReplaceAll(a, from, to) + ReplaceAll(b, from, to)
    decreases |a|
  {
    if a == "" {
      assert a + b == b;
    } else {
      assert (a + b)[1..] == a[1..] + b;
      ReplaceAllAppend(a[1..], b, from, to);
    }
  }

  lemma ReplaceOne(c: char, from: char, to: string)
    ensures ReplaceAll([c], from, to) == if c == from then to else [c]
  {
    assert [c][1..] == "" && ReplaceAll("", from, to) == "";
  }

  lemma ReplaceTwo(a: char, b: char, from: char, to: string)
    requires a != from && b != from
    ensures ReplaceAll([a, b], from, to) == [a, b]
  {
    assert [a, b] == [a] + [b];
    ReplaceAllAppend([a], [b], from, to);
    ReplaceOne(a, from, to);
    ReplaceOne(b, from, to);
  }

  lemma EscapeOne(c: char)
    ensures EscapeLike([c]) == EscapeEach([c])
  {
    hide ReplaceAll;
    ReplaceOne(c, '\\', "\\\\");
    ReplaceTwo('\\', '\\', '%', "\\%");
    ReplaceOne(c, '%', "\\%");
    ReplaceTwo('\\', '\\', '_', "\\_");
    ReplaceTwo('\\', '%', '_', "\\_");
    ReplaceOne(c, '_', "\\_");
    assert [c][1..] == "" && EscapeEach("") == "";
  }

  /** The three successive replacements do not trip over each other's backslashes: together they are one
      pass over the characters. */
  lemma {:induction false} EscapeIsOnePass(value: string)
    ensures EscapeLike(value) == EscapeEach(value)
    decreases |value|
  {
    if value != "" {
      var c, rest := [value[0]], value[1..];
      assert value == c + rest;
      EscapeIsOnePass(rest);
      EscapeOne(value[0]);
      ReplaceAllAppend(c, rest, '\\', "\\\\");
      var c1, r1 := ReplaceAll(c, '\\', "\\\\"), ReplaceAll(rest, '\\', "\\\\");
      ReplaceAllAppend(c1, r1, '%', "\\%");
      ReplaceAllAppend(ReplaceAll(c1, '%', "\\%"), ReplaceAll(r1, '%', "\\%"), '_', "\\_");
      hide ReplaceAll;
    }
  }

  // ----- the escape is exact -----

  lemma Cut(q: string, x: string)
    requires q != ""
    ensures StartsFolded(q, x) <==> x != "" && SameFolded(q[0], x[0]) && StartsFolded(q[1..], x[1..])
  {
    if x != "" && SameFolded(q[0], x[0]) && StartsFolded(q[1..], x[1..]) {
      forall i | 0 <= i < |q| ensures SameFolded(q[i], x[i]) {
        if i > 0 {
          assert q[i] == q[1..][i - 1] && x[i] == x[1..][i - 1];
        }
      }
    }
    if StartsFolded(q, x) {
      forall i | 0 <= i < |q[1..]| ensures SameFolded(q[1..][i], x[1..][i]) {
        assert q[1..][i] == q[i + 1] && x[1..][i] == x[i + 1];
      }
    }
  }

  lemma {:induction false} PercentMatchesAll(x: string)
    ensures Like("%", x)
    decreases |x|
  {
    if x == "" {
      assert Like("%"[1..], x);
    } else {
      PercentMatchesAll(x[1..]);
    }
  }

  /** An escaped text matches exactly itself, up to case; followed by '%', it matches what it begins. */
  lemma {:induction false} EscapedMatches(q: string, x: string)
    ensures Like(EscapeEach(q) + "%", x) <==> StartsFolded(q, x)
    ensures Like(EscapeEach(q), x) <==> EqualFolded(q, x)
    decreases |q|
  {
    if q == "" {
      assert EscapeEach(q) + "%" == "%";
      PercentMatchesAll(x);
    } else {
      Cut(q, x);
      var tail := EscapeEach(q[1..]);
      var special := q[0] == '\\' || q[0] == '%' || q[0] == '_';
      var head := if special then ['\\', q[0]] else [q[0]];
      var p := EscapeEach(q);
      assert p == head + tail && p[|head|..] == tail && (p + "%")[|head|..] == tail + "%";
      if x != "" {
        EscapedMatches(q[1..], x[1..]);
      }
    }
  }

  /** '%' in front lets the rest match anywhere. */
  lemma {:induction false} PercentFirst(p: string, x: string)
    ensures Like("%" + p, x) <==> exists k | 0 <= k <= |x| :: Like(p, x[k..])
    decreases |x|
  {
    assert ("%" + p)[1..] == p;
    assert x[0..] == x;
    if x != "" {
      PercentFirst(p, x[1..]);
      forall k | 0 <= k <= |x[1..]| ensures x[1..][k..] == x[k + 1..] {
      }
      if k :| 0 <= k <= |x| && Like(p, x[k..]) {
        if k > 0 {
          assert x[1..][k - 1..] == x[k..];
        }
      }
      if k :| 0 <= k <= |x[1..]| && Like(p, x[1..][k..]) {
        assert x[k + 1..] == x[1..][k..];
      }
    }
  }

  function ContainsPattern(value: string): string {
    "%" + EscapeLike(value) + "%"
  }

  /** The filter that is meant is the filter that is asked for, whatever characters it is made of. */
  lemma LikeMeansContains(value: string, x: string)
    ensures Like(ContainsPattern(value), x) <==> ContainsFolded(x, value)
  {
    EscapeIsOnePass(value);
    var p := EscapeEach(value) + "%";
    assert ContainsPattern(value) == "%" + p;
    hide EscapeLike, EscapeEach, Like, StartsFolded;
    PercentFirst(p, x);
    forall k | 0 <= k <= |x| ensures Like(p, x[k..]) <==> StartsFolded(value, x[k..]) {
      EscapedMatches(value, x[k..]);
    }
  }
}
