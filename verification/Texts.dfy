/** The string functions of Go's standard library that the program relies on, and what they do. Letters are
    those of ASCII. */
module Texts {
  import opened Captures
  import opened LikePattern

  predicate IsSpace(c: char) {
    var n := c as int;
    9 <= n <= 13 || n == 32 || n == 0x85 || n == 0xA0 || n == 0x1680 || 0x2000 <= n <= 0x200A
    || n == 0x2028 || n == 0x2029 || n == 0x202F || n == 0x205F || n == 0x3000
  }

  function Trim(s: string): string {
    if s == "" then ""
    else if IsSpace(s[0]) then Trim(s[1..])
    else if IsSpace(s[|s| - 1]) then Trim(s[..|s| - 1])
    else s
  }

  function Upper(s: string): string {
    seq(|s|, i requires 0 <= i < |s| => if 'a' <= s[i] <= 'z' then s[i] - 'a' + 'A' else s[i])
  }

  function Lower(s: string): string {
    seq(|s|, i requires 0 <= i < |s| => Fold(s[i]))
  }

  predicate IsDigit(c: char) {
    '0' <= c <= '9'
  }

  function Digits(s: string): int
    requires forall c | c in s :: IsDigit(c)
  {
    if s == "" then 0 else 10 * Digits(s[..|s| - 1]) + (s[|s| - 1] as int - '0' as int)
  }

  /** strconv.Atoi; a number that would not fit is out of every range asked for here anyway. */
  function Atoi(s: string): Option<int> {
    var signed := s != "" && (s[0] == '+' || s[0] == '-');
    var body := if signed then s[1..] else s;
    if body != "" && forall c | c in body :: IsDigit(c) then
      Some(if signed && s[0] == '-' then -Digits(body) else Digits(body))
    else None
  }

  // ----- numbers -----

  function Decimal(n: nat): string {
    (if n < 10 then "" else Decimal(n / 10)) + [(n % 10) as char + '0']
  }

  lemma {:induction false} DecimalReads(n: nat)
    ensures Decimal(n) != "" && (forall c | c in Decimal(n) :: IsDigit(c))
    ensures Digits(Decimal(n)) == n
    decreases n
  {
    if n >= 10 {
      DecimalReads(n / 10);
    }
    var last := (n % 10) as char + '0';
    assert Decimal(n)[..|Decimal(n)| - 1] == if n < 10 then "" else Decimal(n / 10);
    assert Decimal(n)[|Decimal(n)| - 1] == last;
  }

  lemma {:induction false} DecimalIsShort(n: nat, digits: nat)
    requires 0 < digits && n < Power(digits)
    ensures |Decimal(n)| <= digits
    decreases digits
  {
    if n >= 10 {
      DecimalIsShort(n / 10, digits - 1);
    }
  }

  function Power(digits: nat): nat {
    if digits == 0 then 1 else 10 * Power(digits - 1)
  }

  lemma DigitsRead(s: string)
    requires s != "" && forall c | c in s :: IsDigit(c)
    ensures Atoi(s) == Some(Digits(s))
  {
    hide Digits;
    assert IsDigit(s[0]);
  }

  lemma PowerOfFive()
    ensures Power(5) == 100000
  {
    assert Power(2) == 100;
  }

  // ----- what trimming and changing case come to -----

  predicate AllSpace(s: string) {
    forall c | c in s :: IsSpace(c)
  }

  predicate NoSpaceAtEnds(s: string) {
    s != "" ==> !IsSpace(s[0]) && !IsSpace(s[|s| - 1])
  }

  /** What is trimmed off is white space, and none is left at the ends. */
  lemma {:induction false} TrimSplits(s: string) returns (a: string, b: string)
    ensures s == a + Trim(s) + b && AllSpace(a) && AllSpace(b) && NoSpaceAtEnds(Trim(s))
    decreases |s|
  {
    hide IsSpace, AllSpace, NoSpaceAtEnds;
    a, b := "", "";
    assert AllSpace("") by { NoText(); }
    if s != "" && IsSpace(s[0]) {
      a, b := TrimSplits(s[1..]);
      OneMoreSpace(s[0], a);
      Around([s[0]], a, Trim(s[1..]), b, []);
      a := [s[0]] + a;
    } else if s != "" && IsSpace(s[|s| - 1]) {
      a, b := TrimSplits(s[..|s| - 1]);
      OneMoreSpace(s[|s| - 1], b);
      Around([], a, Trim(s[..|s| - 1]), b, [s[|s| - 1]]);
      b := b + [s[|s| - 1]];
    } else {
      assert Trim(s) == s && NoSpaceAtEnds(s) by { EndsStay(s); }
    }
  }

  lemma NoText()
    ensures AllSpace("")
  {
  }

  lemma OneMoreSpace(c: char, s: string)
    requires IsSpace(c) && AllSpace(s)
    ensures AllSpace([c] + s) && AllSpace(s + [c])
  {
    hide IsSpace;
  }

  lemma EndsStay(s: string)
    requires s == "" || (!IsSpace(s[0]) && !IsSpace(s[|s| - 1]))
    ensures NoSpaceAtEnds(s) && Trim(s) == s
  {
  }

  lemma Around(x: string, a: string, m: string, b: string, y: string)
    ensures x + (a + m + b) + y == (x + a) + m + (b + y)
  {
  }

  /** And that says what trimming gives. */
  lemma {:induction false} TrimOf(a: string, m: string, b: string)
    requires AllSpace(a) && AllSpace(b) && NoSpaceAtEnds(m)
    ensures Trim(a + m + b) == m
    decreases |a| + |b|
  {
    hide IsSpace;
    var s := a + m + b;
    if a != "" {
      assert s[1..] == a[1..] + m + b && s[0] == a[0];
      TrimOf(a[1..], m, b);
    } else if b != "" {
      assert s[..|s| - 1] == m + b[..|b| - 1] == a + m + b[..|b| - 1] && s[|s| - 1] == b[|b| - 1];
      TrimOf(a, m, b[..|b| - 1]);
      if IsSpace(s[0]) {
        assert m == "" && s == b;
        OnlySpace(s);
      }
    } else {
      assert s == m;
    }
  }

  lemma {:induction false} OnlySpace(s: string)
    requires AllSpace(s)
    ensures Trim(s) == ""
    decreases |s|
  {
    if s != "" {
      OnlySpace(s[1..]);
    }
  }

  lemma BlankIff(s: string)
    ensures Trim(s) == "" <==> AllSpace(s)
  {
    if AllSpace(s) {
      OnlySpace(s);
    }
    var a, b := TrimSplits(s);
    hide IsSpace, Trim;
  }

  /** The same text up to the case of its letters. */
  predicate SameLetters(a: string, b: string) {
    |a| == |b| && forall i | 0 <= i < |a| :: SameFolded(a[i], b[i])
  }

  lemma UpperIff(u: string, s: string)
    ensures u == Upper(s) <==> SameLetters(u, s) && forall c | c in u :: !('a' <= c <= 'z')
  {
    if SameLetters(u, s) && forall c | c in u :: !('a' <= c <= 'z') {
      forall i | 0 <= i < |u| ensures u[i] == Upper(s)[i] {
        assert u[i] in u;
      }
    }
  }

  lemma LowerIff(l: string, s: string)
    ensures l == Lower(s) <==> SameLetters(l, s) && forall c | c in l :: !('A' <= c <= 'Z')
  {
    if SameLetters(l, s) && forall c | c in l :: !('A' <= c <= 'Z') {
      forall i | 0 <= i < |l| ensures l[i] == Lower(s)[i] {
        assert l[i] in l;
      }
    }
  }

  // ----- texts of three-digit numbers -----

  predicate AllDigits(s: string) {
    forall c | c in s :: IsDigit(c)
  }

  function DigitOf(c: char): int {
    c as int - '0' as int
  }

  function WithoutZeros(s: string): string {
    if s != "" && s[0] == '0' then WithoutZeros(s[1..]) else s
  }

  lemma {:induction false} DigitsFirst(s: string)
    requires s != "" && AllDigits(s) && s[0] == '0'
    ensures Digits(s) == Digits(s[1..])
    decreases |s|
  {
    if |s| > 1 {
      assert s[..|s| - 1][1..] == s[1..][..|s| - 2];
      DigitsFirst(s[..|s| - 1]);
    }
  }

  /** Zeros in front do not count. */
  lemma {:induction false} ZerosDoNotCount(s: string)
    ensures AllDigits(s) <==> AllDigits(WithoutZeros(s))
    ensures WithoutZeros(s) != "" ==> WithoutZeros(s)[0] != '0'
    ensures AllDigits(s) ==> Digits(s) == Digits(WithoutZeros(s))
    decreases |s|
  {
    hide Digits;
    if s != "" && s[0] == '0' {
      ZerosDoNotCount(s[1..]);
      assert s == [s[0]] + s[1..];
      if AllDigits(s) {
        DigitsFirst(s);
      }
    }
  }

  lemma ShortDigits(s: string)
    requires AllDigits(s) && |s| <= 3
    ensures |s| < 3 ==> 0 <= Digits(s) < 100
    ensures |s| == 3 ==> Digits(s) == 100 * DigitOf(s[0]) + 10 * DigitOf(s[1]) + DigitOf(s[2])
  {
    assert Digits("") == 0 && forall i | 0 <= i < |s| :: s[i] in s;
    if |s| == 1 {
      assert s[..0] == "";
    } else if |s| == 2 {
      assert s[..1][..0] == "" && Digits(s[..1]) == DigitOf(s[0]);
    } else if |s| == 3 {
      assert s[..2][..1][..0] == "" && s[..2][..1] == s[..1] && Digits(s[..1]) == DigitOf(s[0]);
      assert Digits(s[..2]) == 10 * DigitOf(s[0]) + DigitOf(s[1]);
    }
  }

  lemma {:induction false} LongDigits(s: string)
    requires AllDigits(s) && |s| >= 4 && s[0] != '0'
    ensures Digits(s) >= 1000
    decreases |s|
  {
    var front := s[..|s| - 1];
    assert front[0] == s[0] && s[0] in s && s[|s| - 1] in s;
    if |s| > 4 {
      LongDigits(front);
    } else {
      assert forall i | 0 <= i < 4 :: s[i] in s;
      ShortDigits(front);
    }
    hide Digits;
    assert Digits(s) >= 10 * Digits(front) by {
      LastDigit(s);
    }
  }

  lemma LastDigit(s: string)
    requires AllDigits(s) && s != ""
    ensures Digits(s) >= 10 * Digits(s[..|s| - 1])
  {
    assert s[|s| - 1] in s;
  }

  // ----- strconv.ParseInt -----

  const MAX_UINT64 := 0xFFFF_FFFF_FFFF_FFFF
  const TWO_TO_63 := 0x8000_0000_0000_0000

  /** The digits of `s` after those that gave `n`: -1 when one is not a digit, and the greatest 64-bit
      value as soon as the number no longer fits, whatever follows. */
  function Unsigned(s: string, n: nat): int {
    if s == "" then n
    else if !('0' <= s[0] <= '9') then -1
    else
      var more := 10 * n + (s[0] as int - '0' as int);
      if more > MAX_UINT64 then MAX_UINT64 else Unsigned(s[1..], more)
  }

  /** The value that strconv.ParseInt(s, 10, 64) returns, its error being dropped. */
  function ParseInt(s: string): int {
    var signed := s != "" && (s[0] == '+' || s[0] == '-');
    var body := if signed then s[1..] else s;
    var n := if body == "" then -1 else Unsigned(body, 0);
    if n < 0 then 0
    else if signed && s[0] == '-' then (if n > TWO_TO_63 then -TWO_TO_63 else -n)
    else if n >= TWO_TO_63 then TWO_TO_63 - 1
    else n
  }

  /** The number that the digits of s make behind n. */
  function NumberFrom(n: nat, s: string): int
    decreases |s|
  {
    if s == "" then n
    else if !IsDigit(s[0]) then -1
    else NumberFrom(10 * n + DigitOf(s[0]), s[1..])
  }

  lemma {:induction false} NumberFromLast(n: nat, s: string, c: char)
    requires AllDigits(s) && IsDigit(c)
    ensures NumberFrom(n, s + [c]) == 10 * NumberFrom(n, s) + DigitOf(c) && NumberFrom(n, s) >= n
    decreases |s|
  {
    if s == "" {
      assert s + [c] == [c] && [c][1..] == "";
    } else {
      assert (s + [c])[1..] == s[1..] + [c] && s[0] in s;
      NumberFromLast(10 * n + DigitOf(s[0]), s[1..], c);
    }
  }

  lemma {:induction false} NumberFromIsDigits(s: string)
    requires AllDigits(s)
    ensures NumberFrom(0, s) == Digits(s) >= 0
    decreases |s|
  {
    if s != "" {
      var front, last := s[..|s| - 1], s[|s| - 1];
      assert s == front + [last] && last in s;
      NumberFromIsDigits(front);
      NumberFromLast(0, front, last);
    }
  }

  lemma {:induction false} UnsignedIsCapped(s: string, n: nat)
    requires AllDigits(s) && n <= MAX_UINT64
    ensures NumberFrom(n, s) >= n
    ensures Unsigned(s, n) == if NumberFrom(n, s) > MAX_UINT64 then MAX_UINT64 else NumberFrom(n, s)
    decreases |s|
  {
    if s != "" {
      assert s[0] in s;
      var more := 10 * n + DigitOf(s[0]);
      if more <= MAX_UINT64 {
        UnsignedIsCapped(s[1..], more);
      } else {
        NumberFromGrows(s[1..], more);
      }
    }
  }

  lemma {:induction false} NumberFromGrows(s: string, n: nat)
    requires AllDigits(s)
    ensures NumberFrom(n, s) >= n
    decreases |s|
  {
    if s != "" {
      assert s[0] in s;
      NumberFromGrows(s[1..], 10 * n + DigitOf(s[0]));
    }
  }

  function Clamped(n: int): int {
    if n < -0x8000_0000_0000_0000 then -0x8000_0000_0000_0000
    else if n > 0x7FFF_FFFF_FFFF_FFFF then 0x7FFF_FFFF_FFFF_FFFF
    else n
  }

  /** The text of a number is read as that number, or as the nearest one that fits into 64 bits. */
  lemma ParseIntMeans(s: string)
    ensures
      match Atoi(s)
      case None => true
      case Some(n) => ParseInt(s) == Clamped(n)
  {
    var signed := s != "" && (s[0] == '+' || s[0] == '-');
    var body := if signed then s[1..] else s;
    if body != "" && AllDigits(body) {
      NumberFromIsDigits(body);
      UnsignedIsCapped(body, 0);
    }
    hide Unsigned, NumberFrom, Digits;
  }

  lemma {:induction false} ShortNonNumber(s: string, n: nat, k: nat)
    requires !AllDigits(s) && n < Power(k) && k + |s| <= 19
    ensures Unsigned(s, n) == -1
    decreases |s|
  {
    hide Power;
    PowersFit(k);
    if s != "" && IsDigit(s[0]) {
      assert s == [s[0]] + s[1..];
      NextPower(k, n, DigitOf(s[0]));
      PowersFit(k + 1);
      ShortNonNumber(s[1..], 10 * n + DigitOf(s[0]), k + 1);
    }
  }

  lemma NextPower(k: nat, n: nat, d: nat)
    requires n < Power(k) && d < 10
    ensures 10 * n + d < Power(k + 1)
  {
  }

  lemma {:induction false} PowersGrow(k: nat, m: nat)
    requires k <= m
    ensures Power(k) <= Power(m)
    decreases m
  {
    if k < m {
      PowersGrow(k, m - 1);
    }
  }

  lemma PowersFit(k: nat)
    requires k <= 19
    ensures Power(k) <= MAX_UINT64
  {
    PowersGrow(k, 19);
    assert Power(5) == 100_000 && Power(10) == 10_000_000_000;
    assert Power(15) == 1_000_000_000_000_000;
  }

  /** Any other text of up to nineteen characters is read as zero. */
  lemma OtherTextIsZero(s: string)
    requires Atoi(s) == None && |s| <= 19
    ensures ParseInt(s) == 0
  {
    var signed := s != "" && (s[0] == '+' || s[0] == '-');
    var body := if signed then s[1..] else s;
    if body != "" {
      ShortNonNumber(body, 0, 0);
    }
    hide Unsigned, Digits;
  }
}
