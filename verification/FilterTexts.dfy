/** What the texts of a filter ask for, from the texts alone (cli/web_index.go:585-625, 664-676). */
module FilterTexts {
  import opened Captures
  import opened LikePattern
  import opened Sql
  import opened Texts
  import opened RequestQuery

  // ----- the status text -----

  /** A digit from 1 to 5 and two x, in either case. */
  predicate IsClassText(s: string) {
    |s| == 3 && '1' <= s[0] <= '5' && (s[1] == 'x' || s[1] == 'X') && (s[2] == 'x' || s[2] == 'X')
  }

  /** A number without its plus sign and the zeros in front. */
  function Significant(s: string): string {
    WithoutZeros(if s != "" && s[0] == '+' then s[1..] else s)
  }

  /** A number of three digits, the first from 1 to 5. */
  predicate IsCodeText(s: string) {
    var t := Significant(s);
    |t| == 3 && '1' <= t[0] <= '5' && IsDigit(t[1]) && IsDigit(t[2])
  }

  predicate KnownStatusText(s: string) {
    s == "" || IsClassText(s) || IsCodeText(s)
  }

  /** Whether a status code is one that the text stands for: any at all, one with that first digit, or the
      one with these three digits. */
  predicate StatusFits(s: string, code: int) {
    || s == ""
    || (IsClassText(s) && code / 100 == DigitOf(s[0]))
    || (IsCodeText(s) && var t := Significant(s);
          code / 100 == DigitOf(t[0]) && code / 10 % 10 == DigitOf(t[1]) && code % 10 == DigitOf(t[2]))
  }

  lemma ThreeDigits(code: int, a: int, b: int, c: int)
    requires 0 <= b < 10 && 0 <= c < 10 && 0 < a
    ensures code == 100 * a + 10 * b + c <==> code / 100 == a && code / 10 % 10 == b && code % 10 == c
  {
    if code == 100 * a + 10 * b + c {
      assert code / 10 == 10 * a + b;
    }
  }

  /** What Atoi makes of a text, from its significant digits. */
  lemma AtoiSignificant(s: string)
    ensures
      var t := Significant(s);
      (Atoi(s).Some? && 100 <= Atoi(s).value <= 599) <==> |t| == 3 && AllDigits(t) && '1' <= t[0] <= '5'
    ensures
      var t := Significant(s);
      IsCodeText(s) ==> Atoi(s) == Some(100 * DigitOf(t[0]) + 10 * DigitOf(t[1]) + DigitOf(t[2]))
  {
    var signed := s != "" && (s[0] == '+' || s[0] == '-');
    var body := if signed then s[1..] else s;
    var t := Significant(s);
    ZerosDoNotCount(body);
    ZerosDoNotCount(s);
    hide Digits;
    DigitsInRange(WithoutZeros(body));
    CodeTextIsDigits(s);
    if signed && s[0] == '-' {
      assert WithoutZeros(s) == s && s[0] in s;
    }
    hide WithoutZeros, AllDigits;
  }

  /** Which digits without zeros in front make a number from 100 to 599. */
  lemma DigitsInRange(u: string)
    requires u != "" ==> u[0] != '0'
    ensures AllDigits(u) ==>
      && Digits(u) >= 0
      && (100 <= Digits(u) <= 599 <==> |u| == 3 && '1' <= u[0] <= '5')
      && (|u| == 3 ==> Digits(u) == 100 * DigitOf(u[0]) + 10 * DigitOf(u[1]) + DigitOf(u[2]))
  {
    hide Digits;
    assert forall i | 0 <= i < |u| :: u[i] in u;
    if AllDigits(u) {
      DigitsAreNotNegative(u);
      if |u| <= 3 {
        ShortDigits(u);
      } else {
        LongDigits(u);
      }
    }
  }

  lemma {:induction false} DigitsAreNotNegative(s: string)
    requires AllDigits(s)
    ensures Digits(s) >= 0
    decreases |s|
  {
    if s != "" {
      DigitsAreNotNegative(s[..|s| - 1]);
      assert s[|s| - 1] in s;
    }
  }

  lemma ClassText(s: string)
    requires |s| == 3
    ensures Lower(s)[1..] == "xx" <==> (s[1] == 'x' || s[1] == 'X') && (s[2] == 'x' || s[2] == 'X')
    ensures Lower(s)[1..] == "xx" ==> !IsCodeText(s)
  {
    var l := Lower(s);
    assert l[1..] == [l[1], l[2]];
    if l[1] == 'x' && l[2] == 'x' && IsCodeText(s) {
      TextOfThree(s);
    }
  }

  lemma TextOfThree(s: string)
    requires |s| == 3 && IsCodeText(s)
    ensures Significant(s) == s
  {
    var body := if s[0] == '+' then s[1..] else s;
    WithoutZerosShorter(body);
  }

  lemma {:induction false} WithoutZerosShorter(s: string)
    ensures |WithoutZeros(s)| <= |s| && (|WithoutZeros(s)| == |s| ==> WithoutZeros(s) == s)
    decreases |s|
  {
    if s != "" && s[0] == '0' {
      WithoutZerosShorter(s[1..]);
    }
  }

  lemma FirstOfClass(s: string)
    requires |s| == 3
    ensures (Atoi(s[..1]).Some? && 1 <= Atoi(s[..1]).value <= 5) <==> '1' <= s[0] <= '5'
    ensures '1' <= s[0] <= '5' ==> Atoi(s[..1]) == Some(DigitOf(s[0]))
  {
    var one := s[..1];
    assert one == [s[0]] && one[..0] == "" && one[1..] == "";
    assert IsDigit(s[0]) ==> Digits(one) == DigitOf(s[0]);
  }

  /** The status text is refused exactly when it is not one of these forms, and otherwise asks for exactly
      the codes it stands for. */
  lemma StatusTextMeans(s: string, code: int)
    ensures StatusFilterOf(s).BadStatus? <==> !KnownStatusText(s)
    ensures StatusAccepts(StatusFilterOf(s), code) <==> StatusFits(s, code)
  {
    hide Atoi;
    AtoiSignificant(s);
    if s == "" {
    } else if |s| == 3 && Lower(s)[1..] == "xx" {
      ClassText(s);
      FirstOfClass(s);
    } else {
      if |s| == 3 {
        ClassText(s);
      }
      if IsCodeText(s) {
        var t := Significant(s);
        ThreeDigits(code, DigitOf(t[0]), DigitOf(t[1]), DigitOf(t[2]));
      }
      hide Significant;
      CodeTextIsDigits(s);
    }
  }

  lemma CodeTextIsDigits(s: string)
    ensures
      var t := Significant(s);
      IsCodeText(s) <==> |t| == 3 && AllDigits(t) && '1' <= t[0] <= '5'
  {
    hide Significant;
    var t := Significant(s);
    assert |t| == 3 ==> t == [t[0], t[1], t[2]];
  }

  // ----- the method text -----

  /** A method of the same letters, all of them capital. */
  predicate VerbFits(text: string, verb: string) {
    text == "" || (SameLetters(verb, text) && forall c | c in verb :: !('a' <= c <= 'z'))
  }

  // ----- what the statements ask for -----

  predicate KnownTexts(f: Filter) {
    KnownStatusText(f.status) && ValidSessionId(f.sessionId) && !FocusModeOf(f.focusMode).BadMode?
  }

  lemma ValidIffKnown(f: Filter)
    ensures IsValid(f) <==> KnownTexts(f)
    ensures IsValid(f) ==> IsValid(f.(status := "", verb := ""))
  {
    StatusTextMeans(f.status, 0);
    StatusTextMeans("", 0);
    hide StatusFilterOf, FocusModeOf, ValidSessionId;
  }

  lemma AcceptsByTexts(f: Filter, row: Row, search: Search)
    ensures Accepts(f, row, search) <==>
      StatusFits(f.status, row.status) && VerbFits(f.verb, row.verb)
      && Accepts(f.(status := "", verb := ""), row, search)
  {
    StatusTextMeans(f.status, row.status);
    StatusTextMeans("", row.status);
    UpperIff(row.verb, f.verb);
    assert StatusFits("", row.status);
    hide StatusFilterOf, StatusAccepts, StatusFits, Focused, FocusModeOf, Upper, SameLetters;
  }

  /** Both statements are refused exactly for an unknown status text, a bad session id or focus mode.
      Otherwise they ask for the status codes and the method that the texts stand for, and beyond that for
      what the same filter without these two texts asks for. */
  lemma TextsMean(f: Filter, row: Row, search: Search)
    ensures Compile(f).Rejected? <==> !KnownTexts(f)
    ensures
      KnownTexts(f) ==>
      var plain := f.(status := "", verb := "");
      var wanted := StatusFits(f.status, row.status) && VerbFits(f.verb, row.verb) && Accepts(plain, row, search);
      && EvalOr(Compile(f).countTokens, Compile(f).countArgs, row, search) == Parsed(wanted, [], [])
      && EvalPage(Compile(f).pageTokens, Compile(f).pageArgs, row, search)
         == Selected(wanted, Focused(f.focusRules, row), f.ascending, EffectivePageSize(f), PageOffset(f))
  {
    ValidIffKnown(f);
    AcceptsByTexts(f, row, search);
    hide IsValid, KnownTexts, Accepts, EvalOr, EvalPage, Focused, StatusFits, VerbFits, EffectivePageSize, PageOffset;
    if IsValid(f) {
      CountMeansFilter(f, row, search);
      PageMeansFilter(f, row, search);
    }
    hide Compile;
    RejectedUnlessValid(f);
  }

  lemma RejectedUnlessValid(f: Filter)
    ensures Compile(f).Rejected? <==> !IsValid(f)
  {
    hide IsValid;
  }

  // ----- focus -----

  /** The mode is read without the white space around it and in either case; no text means all. */
  lemma FocusModeMeans(a: string, m: string, b: string)
    requires AllSpace(a) && AllSpace(b) && NoSpaceAtEnds(m)
    ensures FocusModeOf(a + m + b) ==
      if m == "" || SameLetters(m, "all") then All
      else if SameLetters(m, "only") then Only
      else if SameLetters(m, "exclude") then Exclude
      else BadMode
  {
    TrimOf(a, m, b);
    hide Trim;
    SameAsLower(m, "all");
    SameAsLower(m, "only");
    SameAsLower(m, "exclude");
    assert |Lower(m)| == |m|;
    hide Lower, SameLetters;
  }

  lemma SameAsLower(m: string, word: string)
    requires forall c | c in word :: !('A' <= c <= 'Z')
    ensures Lower(m) == word <==> SameLetters(m, word)
  {
    LowerIff(word, m);
    hide Lower;
  }

  /** A rule counts when it is switched on and its pattern is not blank. */
  lemma ActiveIff(rule: FocusRule)
    ensures RuleIsActive(rule) <==> rule.enabled && exists c :: c in rule.pattern && !IsSpace(c)
  {
    BlankIff(rule.pattern);
    hide Trim, IsSpace;
  }

  /** A rule that does not count makes no difference to either statement, wherever it stands. */
  lemma IdleRulesDoNotMatter(f: Filter, before: seq<FocusRule>, rule: FocusRule, after: seq<FocusRule>)
    requires !rule.enabled || AllSpace(rule.pattern)
    ensures Compile(f.(focusRules := before + [rule] + after)) == Compile(f.(focusRules := before + after))
  {
    ActiveIff(rule);
    assert !RuleIsActive(rule);
    hide *;
    FocusWithout(before, rule, after);
    SameClauses(f, before + [rule] + after, before + after);
  }

  lemma SameClauses(f: Filter, a: seq<FocusRule>, b: seq<FocusRule>)
    requires FocusClauses(a) == FocusClauses(b)
    ensures Compile(f.(focusRules := a)) == Compile(f.(focusRules := b))
  {
    hide FocusClauses, Join, FlagTokens, FocusTokens, ArgsOfAll, WhereParts, WhereArgs, ModeClauses, ValidSessionId,
      StatusFilterOf, FocusModeOf;
    assert PlainClauses(f.(focusRules := a)) == PlainClauses(f.(focusRules := b)) by {
      assert PlainPieces(f.(focusRules := a)) == PlainPieces(f.(focusRules := b));
    }
  }

  lemma {:induction false} FocusWithout(before: seq<FocusRule>, rule: FocusRule, after: seq<FocusRule>)
    requires !RuleIsActive(rule)
    ensures FocusClauses(before + [rule] + after) == FocusClauses(before + after)
    decreases |after|
  {
    hide RuleIsActive, RuleClause;
    var all, rest := before + [rule] + after, before + after;
    if after == [] {
      assert all[..|all| - 1] == before && rest == before;
    } else {
      var front := after[..|after| - 1];
      FocusWithout(before, rule, front);
      assert all[..|all| - 1] == before + [rule] + front && rest[..|rest| - 1] == before + front;
    }
  }
}
