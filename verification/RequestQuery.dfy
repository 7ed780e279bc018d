/** Compiling the request list's filter to SQL (cli/web_index.go:575-730), and what the compiled
    statements mean. */
module RequestQuery {
  import opened Captures
  import opened LikePattern
  import opened Sql
  import opened Texts

  // ----- the filter -----

  datatype FocusRule = FocusRule(kind: string, verb: string, pattern: string, enabled: bool)

  /** `ftsQuery` is the MATCH text made from the search box; it is empty when there is nothing to search. */
  datatype Filter = Filter(
    sessionId: string, ftsQuery: string, verb: string, status: string, contentType: string,
    focusMode: string, focusRules: seq<FocusRule>,
    fromMs: int, toMs: int, minDuration: int, maxDuration: int, minSize: int, maxSize: int,
    ascending: bool, page: int, pageSize: int)

  datatype StatusFilter = AnyStatus | StatusClass(hundreds: int) | ExactStatus(code: int) | BadStatus

  function StatusFilterOf(s: string): StatusFilter {
    if s == "" then AnyStatus
    else if |s| == 3 && Lower(s)[1..] == "xx" then
      match Atoi(s[..1])
      case None => BadStatus
      case Some(n) => if n < 1 || n > 5 then BadStatus else StatusClass(n)
    else
      match Atoi(s)
      case None => BadStatus
      case Some(n) => if n < 100 || n > 599 then BadStatus else ExactStatus(n)
  }

  datatype FocusMode = All | Only | Exclude | BadMode

  function FocusModeOf(s: string): FocusMode {
    var mode := Lower(Trim(s));
    if mode == "" || mode == "all" then All
    else if mode == "only" then Only
    else if mode == "exclude" then Exclude
    else BadMode
  }

  predicate ValidSessionId(id: string) {
    && id != "" && |id| <= 200 && id != "." && id != ".."
    && forall c | c in id :: c != '/' && c != '\\' && !(c as int < 32 || 127 <= c as int < 160)
  }

  // ----- what the filter means, with no SQL in it -----

  predicate RuleIsActive(rule: FocusRule) {
    rule.enabled && Trim(rule.pattern) != ""
  }

  predicate RuleMatches(rule: FocusRule, row: Row) {
    var wanted := Trim(rule.pattern);
    match rule.kind
    case "host_contains" => ContainsFolded(row.host, wanted)
    case "path_contains" => ContainsFolded(row.path, wanted)
    case "method_url_contains" =>
      var verb := Upper(Trim(rule.verb));
      (verb == "" || row.verb == verb) && ContainsFolded(row.url, wanted)
    case _ => ContainsFolded(row.url, wanted)
  }

  predicate Focused(rules: seq<FocusRule>, row: Row) {
    exists rule | rule in rules :: RuleIsActive(rule) && RuleMatches(rule, row)
  }

  predicate InRange(n: int, low: int, high: int) {
    (low > 0 ==> n >= low) && (high > 0 ==> n <= high)
  }

  predicate StatusAccepts(s: StatusFilter, code: int) {
    match s
    case AnyStatus => true
    case StatusClass(n) => 100 * n <= code < 100 * n + 100
    case ExactStatus(n) => code == n
    case BadStatus => false
  }

  /** Everything but the focus mode. */
  predicate AcceptsPlainly(f: Filter, row: Row, search: Search) {
    && row.session == f.sessionId
    && (f.ftsQuery != "" ==> search(row, f.ftsQuery))
    && (f.verb != "" ==> row.verb == Upper(f.verb))
    && StatusAccepts(StatusFilterOf(f.status), row.status)
    && (f.contentType != "" ==> ContainsFolded(row.contentType, f.contentType))
    && InRange(row.timestamp, f.fromMs, f.toMs)
    && InRange(row.duration, f.minDuration, f.maxDuration)
    && InRange(row.requestSize + row.responseSize, f.minSize, f.maxSize)
  }

  predicate Accepts(f: Filter, row: Row, search: Search) {
    && AcceptsPlainly(f, row, search)
    && match FocusModeOf(f.focusMode)
       case Only => Focused(f.focusRules, row)
       case Exclude => !Focused(f.focusRules, row)
       case _ => true
  }

  predicate IsValid(f: Filter) {
    ValidSessionId(f.sessionId) && !FocusModeOf(f.focusMode).BadMode? && !StatusFilterOf(f.status).BadStatus?
  }

  // ----- clauses -----

  datatype Clause =
    | Single(c: Comparison)
    | Pair(a: Comparison, b: Comparison)
    | Never
    | Among(alternatives: seq<Clause>)
    | NotAmong(alternatives: seq<Clause>)

  function Containing(column: Column, text: string): Comparison {
    Comparison(column, LikeEscaped, Text(ContainsPattern(text)))
  }

  function RuleClause(rule: FocusRule): Clause {
    var wanted := Trim(rule.pattern);
    match rule.kind
    case "host_contains" => Single(Containing(Host, wanted))
    case "path_contains" => Single(Containing(Path, wanted))
    case "method_url_contains" =>
      var verb := Upper(Trim(rule.verb));
      if verb == "" then Single(Containing(Url, wanted))
      else Pair(Comparison(Method, Equal, Text(verb)), Containing(Url, wanted))
    case _ => Single(Containing(Url, wanted))
  }

  function FocusClauses(rules: seq<FocusRule>): seq<Clause> {
    if rules == [] then []
    else
      var front, last := FocusClauses(rules[..|rules| - 1]), rules[|rules| - 1];
      if RuleIsActive(last) then front + [RuleClause(last)] else front
  }

  /** strings.Join over token lists. */
  function Join(parts: seq<seq<Token>>, separator: Token): seq<Token> {
    if parts == [] then []
    else if |parts| == 1 then parts[0]
    else parts[0] + [separator] + Join(parts[1..], separator)
  }

  /** An alternative of a focus disjunction as text: a pair is put in parentheses. */
  function AlternativeTokens(c: Clause): seq<Token> {
    match c
    case Single(a) => ComparisonTokens(a)
    case Pair(a, b) => [Open] + (ComparisonTokens(a) + [And] + ComparisonTokens(b)) + [Close]
    case _ => []
  }

  function AlternativeArgs(c: Clause): seq<Value> {
    match c
    case Single(a) => [a.value]
    case Pair(a, b) => [a.value, b.value]
    case _ => []
  }

  function Parts(cs: seq<Clause>): seq<seq<Token>> {
    seq(|cs|, i requires 0 <= i < |cs| => AlternativeTokens(cs[i]))
  }

  function ArgsOfAll(cs: seq<Clause>): seq<Value> {
    if cs == [] then [] else AlternativeArgs(cs[0]) + ArgsOfAll(cs[1..])
  }

  function FocusTokens(cs: seq<Clause>): seq<Token> {
    Join(Parts(cs), Or)
  }

  /** A condition of the WHERE list as text. */
  function ClauseTokens(c: Clause): seq<Token> {
    match c
    case Single(a) => ComparisonTokens(a)
    case Pair(a, b) => ComparisonTokens(a) + [And] + ComparisonTokens(b)
    case Never => [Digit(0)]
    case Among(cs) => [Open] + FocusTokens(cs) + [Close]
    case NotAmong(cs) => [Not, Open] + FocusTokens(cs) + [Close]
  }

  function ClauseArgs(c: Clause): seq<Value> {
    match c
    case Single(a) => [a.value]
    case Pair(a, b) => [a.value, b.value]
    case Never => []
    case Among(cs) => ArgsOfAll(cs)
    case NotAmong(cs) => ArgsOfAll(cs)
  }

  function RangeClauses(column: Column, low: int, high: int): seq<Clause> {
    (if low > 0 then [Single(Comparison(column, AtLeast, Num(low)))] else [])
    + (if high > 0 then [Single(Comparison(column, AtMost, Num(high)))] else [])
  }

  function StatusClauses(s: StatusFilter): seq<Clause> {
    match s
    case StatusClass(n) => [Pair(Comparison(Status, AtLeast, Num(n * 100)),
      Comparison(Status, Below, Num((n + 1) * 100)))]
    case ExactStatus(n) => [Single(Comparison(Status, Equal, Num(n)))]
    case _ => []
  }

  function ModeClauses(mode: FocusMode, focus: seq<Clause>): seq<Clause> {
    match mode
    case Only => if focus == [] then [Never] else [Among(focus)]
    case Exclude => if focus == [] then [] else [NotAmong(focus)]
    case _ => []
  }

  /** The pieces the WHERE list is put together from, in order. */
  function PlainPieces(f: Filter): seq<seq<Clause>> {
    [[Single(Comparison(SessionId, Equal, Text(f.sessionId)))],
     if f.ftsQuery != "" then [Single(Comparison(SearchText, Match, Text(f.ftsQuery)))] else [],
     if f.verb != "" then [Single(Comparison(Method, Equal, Text(Upper(f.verb))))] else [],
     StatusClauses(StatusFilterOf(f.status)),
     if f.contentType != "" then [Single(Containing(ContentType, f.contentType))] else [],
     RangeClauses(Timestamp, f.fromMs, f.toMs),
     RangeClauses(Duration, f.minDuration, f.maxDuration),
     RangeClauses(TotalSize, f.minSize, f.maxSize)]
  }

  function Flatten(pieces: seq<seq<Clause>>): seq<Clause> {
    if pieces == [] then [] else Flatten(pieces[..|pieces| - 1]) + pieces[|pieces| - 1]
  }

  function PlainClauses(f: Filter): seq<Clause> {
    Flatten(PlainPieces(f))
  }

  function WhereClauses(f: Filter): seq<Clause> {
    PlainClauses(f) + ModeClauses(FocusModeOf(f.focusMode), FocusClauses(f.focusRules))
  }

  function WhereParts(cs: seq<Clause>): seq<seq<Token>> {
    seq(|cs|, i requires 0 <= i < |cs| => ClauseTokens(cs[i]))
  }

  function WhereArgs(cs: seq<Clause>): seq<Value> {
    if cs == [] then [] else ClauseArgs(cs[0]) + WhereArgs(cs[1..])
  }

  // ----- what a clause means -----

  predicate Sound(c: Comparison) {
    WellTyped(c.column, c.op, c.value)
  }

  predicate AlternativeSound(c: Clause) {
    (c.Single? && Sound(c.c)) || (c.Pair? && Sound(c.a) && Sound(c.b))
  }

  predicate ClauseSound(c: Clause) {
    match c
    case Single(a) => Sound(a)
    case Pair(a, b) => Sound(a) && Sound(b)
    case Never => true
    case Among(cs) => cs != [] && forall d | d in cs :: AlternativeSound(d)
    case NotAmong(cs) => cs != [] && forall d | d in cs :: AlternativeSound(d)
  }

  predicate AlternativeHolds(c: Clause, row: Row, search: Search)
    requires AlternativeSound(c)
  {
    match c
    case Single(a) => Holds(row, a.column, a.op, a.value, search)
    case Pair(a, b) => Holds(row, a.column, a.op, a.value, search) && Holds(row, b.column, b.op, b.value, search)
  }

  predicate AnyHolds(cs: seq<Clause>, row: Row, search: Search)
    requires forall d | d in cs :: AlternativeSound(d)
  {
    cs != [] && (AlternativeHolds(cs[0], row, search) || AnyHolds(cs[1..], row, search))
  }

  predicate ClauseHolds(c: Clause, row: Row, search: Search)
    requires ClauseSound(c)
  {
    match c
    case Single(a) => Holds(row, a.column, a.op, a.value, search)
    case Pair(a, b) => Holds(row, a.column, a.op, a.value, search) && Holds(row, b.column, b.op, b.value, search)
    case Never => false
    case Among(cs) => AnyHolds(cs, row, search)
    case NotAmong(cs) => !AnyHolds(cs, row, search)
  }

  predicate AllHold(cs: seq<Clause>, row: Row, search: Search)
    requires forall c | c in cs :: ClauseSound(c)
  {
    cs == [] || (ClauseHolds(cs[0], row, search) && AllHold(cs[1..], row, search))
  }

  // ----- the text of a clause evaluates to its meaning -----

  lemma PairReads(a: Comparison, b: Comparison, rest: seq<Token>, args: seq<Value>, row: Row, search: Search)
    requires Sound(a) && Sound(b) && !Next(rest, And)
    ensures EvalAnd(ComparisonTokens(a) + [And] + ComparisonTokens(b) + rest, [a.value, b.value] + args, row, search)
      == Parsed(Holds(row, a.column, a.op, a.value, search) && Holds(row, b.column, b.op, b.value, search), rest, args)
  {
    hide EvalAnd, EvalNot, Holds, WellTyped, ComparisonTokens;
    var tail := ComparisonTokens(b) + rest;
    assert ComparisonTokens(a) + [And] + ComparisonTokens(b) + rest == ComparisonTokens(a) + ([And] + tail);
    assert ComparisonTokens(a) + ([And] + tail) == ComparisonTokens(a) + [And] + tail;
    assert [a.value, b.value] + args == [a.value] + ([b.value] + args);
    ComparisonReads(a, [And] + tail, [b.value] + args, row, search);
    ComparisonReads(b, rest, args, row, search);
    AndEnd(tail, Holds(row, b.column, b.op, b.value, search), [b.value] + args, rest, args, row, search);
    AndLink(ComparisonTokens(a), Holds(row, a.column, a.op, a.value, search),
      [a.value] + ([b.value] + args), tail, [b.value] + args, row, search);
  }

  lemma AlternativeReads(c: Clause, rest: seq<Token>, args: seq<Value>, row: Row, search: Search)
    requires AlternativeSound(c) && !Next(rest, And)
    ensures EvalAnd(AlternativeTokens(c) + rest, AlternativeArgs(c) + args, row, search)
      == Parsed(AlternativeHolds(c, row, search), rest, args)
  {
    hide EvalAnd, EvalNot, EvalOr, Holds, WellTyped, ComparisonTokens;
    var value := AlternativeHolds(c, row, search);
    match c
    case Single(a) =>
      ComparisonReads(a, rest, args, row, search);
      AndEnd(AlternativeTokens(c) + rest, value, AlternativeArgs(c) + args, rest, args, row, search);
    case Pair(a, b) =>
      var inner := ComparisonTokens(a) + [And] + ComparisonTokens(b);
      assert inner + ([Close] + rest) == inner + [Close] + rest;
      PairReads(a, b, [Close] + rest, args, row, search);
      OrEnd(inner + [Close] + rest, value, [a.value, b.value] + args, [Close] + rest, args, row, search);
      ParenReads(inner, value, [a.value, b.value] + args, rest, args, row, search);
      assert AlternativeTokens(c) + rest == [Open] + inner + [Close] + rest;
      AndEnd(AlternativeTokens(c) + rest, value, AlternativeArgs(c) + args, rest, args, row, search);
  }

  lemma JoinStep(parts: seq<seq<Token>>, separator: Token, rest: seq<Token>)
    requires |parts| >= 2
    ensures Join(parts, separator) + rest == parts[0] + [separator] + (Join(parts[1..], separator) + rest)
  {
  }

  lemma {:induction false} AnyReads(cs: seq<Clause>, rest: seq<Token>, args: seq<Value>, row: Row, search: Search)
    requires cs != [] && (forall d | d in cs :: AlternativeSound(d)) && !Next(rest, And) && !Next(rest, Or)
    ensures EvalOr(FocusTokens(cs) + rest, ArgsOfAll(cs) + args, row, search)
      == Parsed(AnyHolds(cs, row, search), rest, args)
    decreases |cs|
  {
    hide EvalAnd, EvalNot, EvalOr, AlternativeHolds, AlternativeSound, AlternativeTokens, AlternativeArgs, Join;
    var c, others := cs[0], cs[1..];
    var head := AlternativeTokens(c);
    if others == [] {
      assert cs == [c];
      JoinOne(Parts(cs), Or);
      AlternativeReads(c, rest, args, row, search);
      assert ArgsOfAll(cs) + args == AlternativeArgs(c) + args;
      OrEnd(head + rest, AlternativeHolds(c, row, search), ArgsOfAll(cs) + args, rest, args, row, search);
    } else {
      var tail := FocusTokens(others) + rest;
      var args' := ArgsOfAll(others) + args;
      AnyReads(others, rest, args, row, search);
      assert Parts(cs)[1..] == Parts(others);
      JoinStep(Parts(cs), Or, rest);
      assert head + [Or] + tail == head + ([Or] + tail);
      assert ArgsOfAll(cs) + args == AlternativeArgs(c) + args';
      AlternativeReads(c, [Or] + tail, args', row, search);
      OrLink(head, AlternativeHolds(c, row, search), ArgsOfAll(cs) + args, tail, args', row, search);
    }
  }

  lemma JoinOne(parts: seq<seq<Token>>, separator: Token)
    requires |parts| == 1
    ensures Join(parts, separator) == parts[0]
  {
  }

  /** Every clause but a pair is read as one operand of AND. */
  lemma OperandReads(c: Clause, rest: seq<Token>, args: seq<Value>, row: Row, search: Search)
    requires ClauseSound(c) && !c.Pair?
    ensures EvalNot(ClauseTokens(c) + rest, ClauseArgs(c) + args, row, search)
      == Parsed(ClauseHolds(c, row, search), rest, args)
  {
    hide EvalAnd, EvalOr, Holds, WellTyped, ComparisonTokens, FocusTokens, AnyHolds, AlternativeSound, ArgsOfAll;
    match c
    case Single(a) =>
      ComparisonReads(a, rest, args, row, search);
    case Never =>
      assert ([Digit(0)] + rest)[1..] == rest && [] + args == args;
    case Among(cs) =>
      AnyReads(cs, [Close] + rest, args, row, search);
      assert FocusTokens(cs) + ([Close] + rest) == FocusTokens(cs) + [Close] + rest;
      ParenReads(FocusTokens(cs), AnyHolds(cs, row, search), ArgsOfAll(cs) + args, rest, args, row, search);
      assert ClauseTokens(c) + rest == [Open] + FocusTokens(cs) + [Close] + rest;
    case NotAmong(cs) =>
      AnyReads(cs, [Close] + rest, args, row, search);
      assert FocusTokens(cs) + ([Close] + rest) == FocusTokens(cs) + [Close] + rest;
      ParenReads(FocusTokens(cs), AnyHolds(cs, row, search), ArgsOfAll(cs) + args, rest, args, row, search);
      assert ClauseTokens(c) + rest == [Not, Open] + FocusTokens(cs) + [Close] + rest;
  }

  lemma ClauseEnds(c: Clause, rest: seq<Token>, args: seq<Value>, row: Row, search: Search)
    requires ClauseSound(c) && !Next(rest, And)
    ensures EvalAnd(ClauseTokens(c) + rest, ClauseArgs(c) + args, row, search)
      == Parsed(ClauseHolds(c, row, search), rest, args)
  {
    hide EvalAnd, EvalNot, Holds, WellTyped, ComparisonTokens, FocusTokens, AnyHolds, AlternativeSound;
    if c.Pair? {
      PairReads(c.a, c.b, rest, args, row, search);
    } else {
      OperandReads(c, rest, args, row, search);
      AndEnd(ClauseTokens(c) + rest, ClauseHolds(c, row, search), ClauseArgs(c) + args, rest, args, row, search);
    }
  }

  lemma PairLinks(a: Comparison, b: Comparison, tail: seq<Token>, args: seq<Value>, row: Row, search: Search)
    requires Sound(a) && Sound(b) && EvalAnd(tail, args, row, search).Parsed?
    ensures
      var r := EvalAnd(tail, args, row, search);
      EvalAnd(ComparisonTokens(a) + [And] + (ComparisonTokens(b) + [And] + tail),
              [a.value] + ([b.value] + args), row, search)
      == Parsed(Holds(row, a.column, a.op, a.value, search) && Holds(row, b.column, b.op, b.value, search) && r.value,
                r.tokens, r.args)
  {
    hide EvalAnd, EvalNot, Holds, WellTyped, ComparisonTokens;
    var mid := ComparisonTokens(b) + [And] + tail;
    assert ComparisonTokens(b) + ([And] + tail) == mid;
    ComparisonReads(b, [And] + tail, args, row, search);
    AndLink(ComparisonTokens(b), Holds(row, b.column, b.op, b.value, search),
      [b.value] + args, tail, args, row, search);
    assert ComparisonTokens(a) + ([And] + mid) == ComparisonTokens(a) + [And] + mid;
    ComparisonReads(a, [And] + mid, [b.value] + args, row, search);
    AndLink(ComparisonTokens(a), Holds(row, a.column, a.op, a.value, search),
      [a.value] + ([b.value] + args), mid, [b.value] + args, row, search);
  }

  lemma ClauseLinks(c: Clause, tail: seq<Token>, args: seq<Value>, row: Row, search: Search)
    requires ClauseSound(c) && EvalAnd(tail, args, row, search).Parsed?
    ensures
      var r := EvalAnd(tail, args, row, search);
      EvalAnd(ClauseTokens(c) + [And] + tail, ClauseArgs(c) + args, row, search)
      == Parsed(ClauseHolds(c, row, search) && r.value, r.tokens, r.args)
  {
    hide EvalAnd, EvalNot, Holds, WellTyped, ComparisonTokens, FocusTokens, AnyHolds, AlternativeSound;
    if c.Pair? {
      PairLinks(c.a, c.b, tail, args, row, search);
      assert ClauseArgs(c) + args == [c.a.value] + ([c.b.value] + args);
      assert ClauseTokens(c) + [And] + tail == ComparisonTokens(c.a) + [And] + (ComparisonTokens(c.b) + [And] + tail);
    } else {
      OperandReads(c, [And] + tail, args, row, search);
      assert ClauseTokens(c) + ([And] + tail) == ClauseTokens(c) + [And] + tail;
      AndLink(ClauseTokens(c), ClauseHolds(c, row, search), ClauseArgs(c) + args, tail, args, row, search);
    }
  }

  lemma {:induction false} AllReads(cs: seq<Clause>, rest: seq<Token>, args: seq<Value>, row: Row, search: Search)
    requires cs != [] && (forall c | c in cs :: ClauseSound(c)) && !Next(rest, And)
    ensures EvalAnd(Join(WhereParts(cs), And) + rest, WhereArgs(cs) + args, row, search)
      == Parsed(AllHold(cs, row, search), rest, args)
    decreases |cs|
  {
    hide EvalAnd, EvalNot, EvalOr, ClauseHolds, ClauseSound, ClauseTokens, ClauseArgs, Join;
    var c, others := cs[0], cs[1..];
    if others == [] {
      assert cs == [c];
      JoinOne(WhereParts(cs), And);
      ClauseEnds(c, rest, args, row, search);
      assert WhereArgs(cs) + args == ClauseArgs(c) + args;
    } else {
      var tail := Join(WhereParts(others), And) + rest;
      AllReads(others, rest, args, row, search);
      assert WhereParts(cs)[1..] == WhereParts(others);
      JoinStep(WhereParts(cs), And, rest);
      assert WhereArgs(cs) + args == ClauseArgs(c) + (WhereArgs(others) + args);
      ClauseLinks(c, tail, WhereArgs(others) + args, row, search);
    }
  }

  // ----- the clauses mean the filter -----

  lemma {:induction false} AllHoldAppend(a: seq<Clause>, b: seq<Clause>, row: Row, search: Search)
    requires forall c | c in a + b :: ClauseSound(c)
    requires (forall c | c in a :: ClauseSound(c)) && forall c | c in b :: ClauseSound(c)
    ensures AllHold(a + b, row, search) <==> AllHold(a, row, search) && AllHold(b, row, search)
    decreases |a|
  {
    hide ClauseHolds, ClauseSound;
    if a == [] {
      assert a + b == b;
    } else {
      assert (a + b)[1..] == a[1..] + b;
      AllHoldAppend(a[1..], b, row, search);
    }
  }

  lemma {:induction false} AnyHoldsSnoc(cs: seq<Clause>, c: Clause, row: Row, search: Search)
    requires forall d | d in cs + [c] :: AlternativeSound(d)
    requires (forall d | d in cs :: AlternativeSound(d)) && AlternativeSound(c)
    ensures AnyHolds(cs + [c], row, search) <==> AnyHolds(cs, row, search) || AlternativeHolds(c, row, search)
    decreases |cs|
  {
    hide AlternativeHolds, AlternativeSound;
    if cs != [] {
      assert (cs + [c])[1..] == cs[1..] + [c];
      AnyHoldsSnoc(cs[1..], c, row, search);
    }
  }

  lemma RuleMeaning(rule: FocusRule, row: Row, search: Search)
    ensures AlternativeSound(RuleClause(rule))
    ensures AlternativeHolds(RuleClause(rule), row, search) <==> RuleMatches(rule, row)
  {
    hide ContainsFolded, Like, Trim, Upper, ContainsPattern;
    LikeMeansContains(Trim(rule.pattern), row.host);
    LikeMeansContains(Trim(rule.pattern), row.path);
    LikeMeansContains(Trim(rule.pattern), row.url);
  }

  lemma {:induction false} FocusMeaning(rules: seq<FocusRule>, row: Row, search: Search)
    ensures forall c | c in FocusClauses(rules) :: AlternativeSound(c)
    ensures AnyHolds(FocusClauses(rules), row, search) <==> Focused(rules, row)
    decreases |rules|
  {
    hide AlternativeSound, AlternativeHolds, RuleMatches, RuleClause, RuleIsActive, AnyHolds;
    if rules == [] {
      NoneHolds(row, search);
    } else {
      var front, last := rules[..|rules| - 1], rules[|rules| - 1];
      assert rules == front + [last];
      FocusMeaning(front, row, search);
      RuleMeaning(last, row, search);
      if RuleIsActive(last) {
        AnyHoldsSnoc(FocusClauses(front), RuleClause(last), row, search);
      }
    }
  }

  lemma NoneHolds(row: Row, search: Search)
    ensures !AnyHolds([], row, search)
  {
  }

  lemma RangeMeaning(column: Column, low: int, high: int, row: Row, search: Search)
    requires IsNumeric(column)
    ensures forall c | c in RangeClauses(column, low, high) :: ClauseSound(c)
    ensures AllHold(RangeClauses(column, low, high), row, search) <==> InRange(NumOf(row, column), low, high)
  {
    var a: seq<Clause> := if low > 0 then [Single(Comparison(column, AtLeast, Num(low)))] else [];
    var b: seq<Clause> := if high > 0 then [Single(Comparison(column, AtMost, Num(high)))] else [];
    AllHoldAppend(a, b, row, search);
  }

  lemma {:induction false} FlattenHolds(pieces: seq<seq<Clause>>, row: Row, search: Search)
    requires forall i | 0 <= i < |pieces| :: forall c | c in pieces[i] :: ClauseSound(c)
    ensures forall c | c in Flatten(pieces) :: ClauseSound(c)
    ensures AllHold(Flatten(pieces), row, search) <==> forall i | 0 <= i < |pieces| :: AllHold(pieces[i], row, search)
    decreases |pieces|
  {
    hide ClauseSound, AllHold;
    if pieces == [] {
      NothingToHold(row, search);
    } else {
      var front := pieces[..|pieces| - 1];
      FlattenHolds(front, row, search);
      AllHoldAppend(Flatten(front), pieces[|pieces| - 1], row, search);
      assert forall i | 0 <= i < |front| :: front[i] == pieces[i];
    }
  }

  lemma NothingToHold(row: Row, search: Search)
    ensures AllHold([], row, search)
  {
  }

  lemma OneHolds(c: Clause, row: Row, search: Search)
    requires ClauseSound(c)
    ensures AllHold([c], row, search) <==> ClauseHolds(c, row, search)
  {
    NothingToHold(row, search);
  }

  lemma StatusMeaning(s: StatusFilter, row: Row, search: Search)
    requires !s.BadStatus?
    ensures forall c | c in StatusClauses(s) :: ClauseSound(c)
    ensures AllHold(StatusClauses(s), row, search) <==> StatusAccepts(s, row.status)
  {
  }

  lemma OptionalHolds(present: bool, c: Clause, row: Row, search: Search)
    requires ClauseSound(c)
    ensures
      var cs := if present then [c] else [];
      (forall d | d in cs :: ClauseSound(d))
        && (AllHold(cs, row, search) <==> (present ==> ClauseHolds(c, row, search)))
  {
    NothingToHold(row, search);
    OneHolds(c, row, search);
  }

  lemma TextMeanings(f: Filter, row: Row, search: Search)
    ensures forall i | 0 <= i < 3 || i == 4 :: forall c | c in PlainPieces(f)[i] :: ClauseSound(c)
    ensures
      var pieces := PlainPieces(f);
      && (AllHold(pieces[0], row, search) <==> row.session == f.sessionId)
      && (AllHold(pieces[1], row, search) <==> (f.ftsQuery != "" ==> search(row, f.ftsQuery)))
      && (AllHold(pieces[2], row, search) <==> (f.verb != "" ==> row.verb == Upper(f.verb)))
      && (AllHold(pieces[4], row, search) <==> (f.contentType != "" ==> ContainsFolded(row.contentType, f.contentType)))
  {
    hide StatusClauses, StatusFilterOf, RangeClauses, ContainsPattern, Like, ContainsFolded, Upper, AllHold;
    OptionalHolds(true, Single(Comparison(SessionId, Equal, Text(f.sessionId))), row, search);
    OptionalHolds(f.ftsQuery != "", Single(Comparison(SearchText, Match, Text(f.ftsQuery))), row, search);
    OptionalHolds(f.verb != "", Single(Comparison(Method, Equal, Text(Upper(f.verb)))), row, search);
    OptionalHolds(f.contentType != "", Single(Containing(ContentType, f.contentType)), row, search);
    LikeMeansContains(f.contentType, row.contentType);
  }

  lemma NumberMeanings(f: Filter, row: Row, search: Search)
    requires !StatusFilterOf(f.status).BadStatus?
    ensures forall i | i == 3 || 5 <= i < 8 :: forall c | c in PlainPieces(f)[i] :: ClauseSound(c)
    ensures
      var pieces := PlainPieces(f);
      && (AllHold(pieces[3], row, search) <==> StatusAccepts(StatusFilterOf(f.status), row.status))
      && (AllHold(pieces[5], row, search) <==> InRange(row.timestamp, f.fromMs, f.toMs))
      && (AllHold(pieces[6], row, search) <==> InRange(row.duration, f.minDuration, f.maxDuration))
      && (AllHold(pieces[7], row, search) <==> InRange(row.requestSize + row.responseSize, f.minSize, f.maxSize))
  {
    hide StatusClauses, StatusFilterOf, StatusAccepts, RangeClauses, InRange, ContainsPattern, Upper, AllHold,
      ClauseSound;
    StatusMeaning(StatusFilterOf(f.status), row, search);
    RangeMeaning(Timestamp, f.fromMs, f.toMs, row, search);
    RangeMeaning(Duration, f.minDuration, f.maxDuration, row, search);
    RangeMeaning(TotalSize, f.minSize, f.maxSize, row, search);
  }

  lemma PlainMeaning(f: Filter, row: Row, search: Search)
    requires !StatusFilterOf(f.status).BadStatus?
    ensures forall c | c in Flatten(PlainPieces(f)) :: ClauseSound(c)
    ensures AllHold(Flatten(PlainPieces(f)), row, search) <==> AcceptsPlainly(f, row, search)
  {
    EightPieces(f);
    hide PlainPieces, StatusFilterOf, StatusAccepts, InRange, ContainsFolded, Upper, Flatten, AllHold, ClauseSound;
    TextMeanings(f, row, search);
    NumberMeanings(f, row, search);
    FlattenHolds(PlainPieces(f), row, search);
    EightHold(PlainPieces(f), row, search);
  }

  lemma EightPieces(f: Filter)
    ensures |PlainPieces(f)| == 8
  {
  }

  lemma EightHold(pieces: seq<seq<Clause>>, row: Row, search: Search)
    requires |pieces| == 8 && forall i | 0 <= i < |pieces| :: forall c | c in pieces[i] :: ClauseSound(c)
    ensures (forall i | 0 <= i < |pieces| :: AllHold(pieces[i], row, search)) <==>
      AllHold(pieces[0], row, search) && AllHold(pieces[1], row, search) && AllHold(pieces[2], row, search)
      && AllHold(pieces[3], row, search) && AllHold(pieces[4], row, search) && AllHold(pieces[5], row, search)
      && AllHold(pieces[6], row, search) && AllHold(pieces[7], row, search)
  {
    hide AllHold, ClauseSound;
  }

  lemma ModeMeaning(f: Filter, row: Row, search: Search)
    ensures forall c | c in ModeClauses(FocusModeOf(f.focusMode), FocusClauses(f.focusRules)) :: ClauseSound(c)
    ensures AllHold(ModeClauses(FocusModeOf(f.focusMode), FocusClauses(f.focusRules)), row, search) <==>
      match FocusModeOf(f.focusMode)
      case Only => Focused(f.focusRules, row)
      case Exclude => !Focused(f.focusRules, row)
      case _ => true
  {
    hide FocusModeOf, Focused, AlternativeSound;
    FocusMeaning(f.focusRules, row, search);
    hide FocusClauses;
    if FocusClauses(f.focusRules) == [] {
      NoneHolds(row, search);
    }
  }

  lemma WhereMeaning(f: Filter, row: Row, search: Search)
    requires IsValid(f)
    ensures forall c | c in WhereClauses(f) :: ClauseSound(c)
    ensures AllHold(WhereClauses(f), row, search) <==> Accepts(f, row, search)
  {
    hide AllHold, ClauseSound, StatusFilterOf, FocusModeOf, ModeClauses, FocusClauses, AcceptsPlainly, Focused,
      Flatten, PlainPieces;
    PlainMeaning(f, row, search);
    ModeMeaning(f, row, search);
    AllHoldAppend(PlainClauses(f), ModeClauses(FocusModeOf(f.focusMode), FocusClauses(f.focusRules)), row, search);
  }

  // ----- the compiled statements -----

  /** COUNT statement: WHERE text and arguments. Page statement: last select item, WHERE text, order and
      limits, with the select list's arguments first. */
  datatype Statements =
    | Statements(countTokens: seq<Token>, countArgs: seq<Value>, pageTokens: seq<Token>, pageArgs: seq<Value>,
                 page: int, pageSize: int)
    | Rejected

  function EffectivePage(f: Filter): nat {
    if f.page < 1 then 1 else f.page
  }

  function EffectivePageSize(f: Filter): nat {
    if f.pageSize < 1 then 100 else if f.pageSize > 500 then 500 else f.pageSize
  }

  function PageOffset(f: Filter): nat {
    (EffectivePage(f) - 1) * EffectivePageSize(f)
  }

  function FlagTokens(focus: seq<Token>): seq<Token> {
    if focus == [] then [Digit(0)] else [Case, When] + focus + [Then, Digit(1), Else, Digit(0), End]
  }

  function Compile(f: Filter): Statements {
    if !IsValid(f) then Rejected
    else
      var conditions := Join(WhereParts(WhereClauses(f)), And);
      var args := WhereArgs(WhereClauses(f));
      var focus := FocusClauses(f.focusRules);
      var page, size := EffectivePage(f), EffectivePageSize(f);
      Statements(
        conditions, args,
        FlagTokens(FocusTokens(focus)) + [Where] + conditions + [OrderBy(f.ascending), Limit, Param, Offset, Param],
        ArgsOfAll(focus) + args + [Num(size), Num(PageOffset(f))],
        page, size)
  }

  lemma {:induction false} WhereArgsAppend(a: seq<Clause>, b: seq<Clause>)
    ensures WhereArgs(a + b) == WhereArgs(a) + WhereArgs(b)
    ensures WhereParts(a + b) == WhereParts(a) + WhereParts(b)
    decreases |a|
  {
    hide ClauseArgs, ClauseTokens;
    if a == [] {
      assert a + b == b;
    } else {
      assert (a + b)[1..] == a[1..] + b;
      WhereArgsAppend(a[1..], b);
    }
  }

  lemma {:induction false} ArgsOfAllSnoc(a: seq<Clause>, c: Clause)
    ensures ArgsOfAll(a + [c]) == ArgsOfAll(a) + AlternativeArgs(c)
    ensures Parts(a + [c]) == Parts(a) + [AlternativeTokens(c)]
    decreases |a|
  {
    hide AlternativeArgs, AlternativeTokens;
    if a == [] {
      assert a + [c] == [c];
    } else {
      assert (a + [c])[1..] == a[1..] + [c];
      ArgsOfAllSnoc(a[1..], c);
    }
  }

  lemma FocusTextIsEmptyIff(rules: seq<FocusRule>)
    ensures FocusTokens(FocusClauses(rules)) == [] <==> FocusClauses(rules) == []
  {
    var cs := FocusClauses(rules);
    FocusMeaning(rules, Row(0, "", "", "", "", "", "", 0, 0, 0, 0, 0), (_, _) => true);
    hide FocusClauses, Focused, AnyHolds;
    if |cs| > 0 {
      assert AlternativeSound(cs[0]);
      assert |Parts(cs)| == |cs| && Parts(cs)[0] == AlternativeTokens(cs[0]) != [];
    }
  }

  method RuleSql(rule: FocusRule) returns (clause: seq<Token>, arguments: seq<Value>)
    requires RuleIsActive(rule)
    ensures clause == AlternativeTokens(RuleClause(rule)) && arguments == AlternativeArgs(RuleClause(rule))
  {
    hide Trim, Upper, ContainsPattern;
    var like := Text(ContainsPattern(Trim(rule.pattern)));
    match rule.kind {
      case "host_contains" =>
        clause, arguments := [Col(Host), Op(LikeEscaped), Param], [like];
      case "path_contains" =>
        clause, arguments := [Col(Path), Op(LikeEscaped), Param], [like];
      case "method_url_contains" =>
        var verb := Upper(Trim(rule.verb));
        if verb == "" {
          clause, arguments := [Col(Url), Op(LikeEscaped), Param], [like];
        } else {
          clause := [Open, Col(Method), Op(Equal), Param, And, Col(Url), Op(LikeEscaped), Param, Close];
          arguments := [Text(verb), like];
        }
      case _ =>
        clause, arguments := [Col(Url), Op(LikeEscaped), Param], [like];
    }
  }

  method FocusRulesSql(rules: seq<FocusRule>) returns (text: seq<Token>, arguments: seq<Value>)
    ensures text == FocusTokens(FocusClauses(rules)) && arguments == ArgsOfAll(FocusClauses(rules))
  {
    hide Trim, RuleClause, AlternativeTokens, AlternativeArgs, ArgsOfAll, Join;
    var clauses: seq<seq<Token>> := [];
    arguments := [];
    NoArgs();
    for i := 0 to |rules|
      invariant clauses == Parts(FocusClauses(rules[..i])) && arguments == ArgsOfAll(FocusClauses(rules[..i]))
    {
      var rule := rules[i];
      assert rules[..i + 1][..i] == rules[..i];
      if !rule.enabled {
        continue;
      }
      if Trim(rule.pattern) == "" {
        continue;
      }
      ArgsOfAllSnoc(FocusClauses(rules[..i]), RuleClause(rule));
      var clause, added := RuleSql(rule);
      clauses, arguments := clauses + [clause], arguments + added;
    }
    assert rules[..|rules|] == rules;
    text := Join(clauses, Or);
  }

  lemma NoArgs()
    ensures ArgsOfAll([]) == [] && WhereArgs([]) == [] && WhereParts([]) == []
  {
  }

  /** The closure addIntRange. */
  method AddIntRange(
    conditions: seq<seq<Token>>, arguments: seq<Value>, column: Column, minimum: int, maximum: int,
      ghost cs: seq<Clause>)
    returns (conditions': seq<seq<Token>>, arguments': seq<Value>)
    requires conditions == WhereParts(cs) && arguments == WhereArgs(cs)
    ensures conditions' == WhereParts(cs + RangeClauses(column, minimum, maximum))
    ensures arguments' == WhereArgs(cs + RangeClauses(column, minimum, maximum))
  {
    hide WhereParts, WhereArgs;
    NoArgs();
    conditions', arguments' := conditions, arguments;
    ghost var low: seq<Clause> := if minimum > 0 then [Single(Comparison(column, AtLeast, Num(minimum)))] else [];
    ghost var high: seq<Clause> := if maximum > 0 then [Single(Comparison(column, AtMost, Num(maximum)))] else [];
    WhereArgsAppend(low, high);
    WhereArgsAppend(cs, low + high);
    if minimum > 0 {
      OnePart(low[0]);
      conditions', arguments' := conditions' + [[Col(column), Op(AtLeast), Param]], arguments' + [Num(minimum)];
    }
    if maximum > 0 {
      OnePart(high[0]);
      conditions', arguments' := conditions' + [[Col(column), Op(AtMost), Param]], arguments' + [Num(maximum)];
    }
  }

  lemma FlattenPrefix(pieces: seq<seq<Clause>>, k: nat)
    requires k < |pieces|
    ensures Flatten(pieces[..k + 1]) == Flatten(pieces[..k]) + pieces[k]
    ensures WhereParts(Flatten(pieces[..k + 1])) == WhereParts(Flatten(pieces[..k])) + WhereParts(pieces[k])
    ensures WhereArgs(Flatten(pieces[..k + 1])) == WhereArgs(Flatten(pieces[..k])) + WhereArgs(pieces[k])
  {
    assert pieces[..k + 1][..k] == pieces[..k];
    WhereArgsAppend(Flatten(pieces[..k]), pieces[k]);
    hide WhereArgs;
  }

  lemma OnePart(c: Clause)
    ensures WhereParts([c]) == [ClauseTokens(c)] && WhereArgs([c]) == ClauseArgs(c)
  {
    NoArgs();
    hide ClauseTokens, ClauseArgs;
  }

  /** The status condition; a status group is two comparisons in one text. */
  method AddStatus(conditions: seq<seq<Token>>, arguments: seq<Value>, status: StatusFilter, ghost cs: seq<Clause>)
    returns (conditions': seq<seq<Token>>, arguments': seq<Value>)
    requires conditions == WhereParts(cs) && arguments == WhereArgs(cs)
    ensures conditions' == WhereParts(cs) + WhereParts(StatusClauses(status))
    ensures arguments' == WhereArgs(cs) + WhereArgs(StatusClauses(status))
  {
    hide WhereParts, WhereArgs;
    NoArgs();
    ghost var added := StatusClauses(status);
    conditions', arguments' := conditions, arguments;
    match status {
      case StatusClass(n) =>
        OnePart(added[0]);
        assert ClauseTokens(added[0]) == [Col(Status), Op(AtLeast), Param, And, Col(Status), Op(Below), Param];
        conditions' := conditions + [[Col(Status), Op(AtLeast), Param, And, Col(Status), Op(Below), Param]];
        arguments' := arguments + [Num(n * 100), Num((n + 1) * 100)];
      case ExactStatus(n) =>
        OnePart(added[0]);
        conditions', arguments' := conditions + [[Col(Status), Op(Equal), Param]], arguments + [Num(n)];
      case _ =>
    }
  }

  /** The conditions on session, search text, method, status and content type. */
  method TextWhere(f: Filter) returns (conditions: seq<seq<Token>>, arguments: seq<Value>)
    requires IsValid(f)
    ensures conditions == WhereParts(Flatten(PlainPieces(f)[..5]))
      && arguments == WhereArgs(Flatten(PlainPieces(f)[..5]))
  {
    hide StatusFilterOf, StatusClauses, Upper, ContainsPattern, RangeClauses, Flatten, WhereArgs, WhereParts, IsValid;
    ghost var pieces := PlainPieces(f);
    NoArgs();
    conditions, arguments := [[Col(SessionId), Op(Equal), Param]], [Text(f.sessionId)];
    FirstPiece(f);
    FlattenPrefix(pieces, 1);
    if f.ftsQuery != "" {
      OnePart(pieces[1][0]);
      conditions, arguments := conditions + [[Col(SearchText), Op(Match), Param]], arguments + [Text(f.ftsQuery)];
    }
    FlattenPrefix(pieces, 2);
    if f.verb != "" {
      OnePart(pieces[2][0]);
      conditions, arguments := conditions + [[Col(Method), Op(Equal), Param]], arguments + [Text(Upper(f.verb))];
    }
    FlattenPrefix(pieces, 3);
    conditions, arguments := AddStatus(conditions, arguments, StatusFilterOf(f.status), Flatten(pieces[..3]));
    FlattenPrefix(pieces, 4);
    if f.contentType != "" {
      OnePart(pieces[4][0]);
      conditions := conditions + [[Col(ContentType), Op(LikeEscaped), Param]];
      arguments := arguments + [Text(ContainsPattern(f.contentType))];
    }
  }

  /** The conditions that do not depend on the focus mode. */
  method PlainWhere(f: Filter) returns (conditions: seq<seq<Token>>, arguments: seq<Value>)
    requires IsValid(f)
    ensures conditions == WhereParts(PlainClauses(f)) && arguments == WhereArgs(PlainClauses(f))
  {
    hide StatusClauses, RangeClauses, Flatten, WhereArgs, WhereParts, IsValid, Containing, Upper;
    ghost var pieces := PlainPieces(f);
    conditions, arguments := TextWhere(f);
    FlattenPrefix(pieces, 5);
    conditions, arguments := AddIntRange(conditions, arguments, Timestamp, f.fromMs, f.toMs, Flatten(pieces[..5]));
    FlattenPrefix(pieces, 6);
    conditions, arguments := AddIntRange(conditions, arguments, Duration, f.minDuration, f.maxDuration,
      Flatten(pieces[..6]));
    FlattenPrefix(pieces, 7);
    conditions, arguments := AddIntRange(conditions, arguments, TotalSize, f.minSize, f.maxSize, Flatten(pieces[..7]));
    assert pieces[..8] == pieces;
  }

  lemma FirstPiece(f: Filter)
    ensures Flatten(PlainPieces(f)[..1]) == PlainPieces(f)[0]
    ensures WhereParts(PlainPieces(f)[0]) == [[Col(SessionId), Op(Equal), Param]]
    ensures WhereArgs(PlainPieces(f)[0]) == [Text(f.sessionId)]
  {
    hide StatusFilterOf, Upper, ContainsPattern, RangeClauses, StatusClauses;
    var one := PlainPieces(f)[..1];
    assert one[..0] == [] && Flatten([]) == [];
  }

  /** listRequests up to the two queries it sends. */
  method ListRequestsSql(f: Filter) returns (r: Statements)
    ensures r == Compile(f)
  {
    hide PlainClauses, FocusTokens, FocusClauses, ArgsOfAll, WhereArgs, WhereParts, Join, StatusFilterOf,
      FocusModeOf, ValidSessionId;
    if !ValidSessionId(f.sessionId) {
      return Rejected;
    }
    var page, pageSize := f.page, f.pageSize;
    if page < 1 {
      page := 1;
    }
    if pageSize < 1 {
      pageSize := 100;
    }
    if pageSize > 500 {
      pageSize := 500;
    }
    var focusMode := FocusModeOf(f.focusMode);
    if focusMode.BadMode? || StatusFilterOf(f.status).BadStatus? {
      return Rejected;
    }
    var conditions, arguments := PlainWhere(f);
    var focusWhere, focusArguments := FocusRulesSql(f.focusRules);
    FocusTextIsEmptyIff(f.focusRules);
    ghost var mode := ModeClauses(focusMode, FocusClauses(f.focusRules));
    WhereArgsAppend(PlainClauses(f), mode);
    NoArgs();
    if focusMode == Only {
      OnePart(mode[0]);
      if focusWhere == [] {
        conditions := conditions + [[Digit(0)]];
      } else {
        conditions := conditions + [[Open] + focusWhere + [Close]];
        arguments := arguments + focusArguments;
      }
    } else if focusMode == Exclude && focusWhere != [] {
      OnePart(mode[0]);
      conditions := conditions + [[Not, Open] + focusWhere + [Close]];
      arguments := arguments + focusArguments;
    }
    assert conditions == WhereParts(WhereClauses(f)) && arguments == WhereArgs(WhereClauses(f));
    var whereSql := Join(conditions, And);
    var focusSelect, focusSelectArguments := [Digit(0)], [];
    if focusWhere != [] {
      focusSelect := [Case, When] + focusWhere + [Then, Digit(1), Else, Digit(0), End];
      focusSelectArguments := focusArguments;
    }
    return Statements(
      whereSql, arguments,
      focusSelect + [Where] + whereSql + [OrderBy(f.ascending), Limit, Param, Offset, Param],
      focusSelectArguments + arguments + [Num(pageSize), Num((page - 1) * pageSize)],
      page, pageSize);
  }

  // ----- what they mean -----

  lemma WhereIsNotEmpty(f: Filter)
    ensures WhereClauses(f) != []
  {
    hide StatusClauses, RangeClauses, FocusClauses, ModeClauses, Flatten, StatusFilterOf, Upper, ContainsPattern;
    var pieces := PlainPieces(f);
    FlattenNonEmpty(pieces, 0);
  }

  lemma {:induction false} FlattenNonEmpty(pieces: seq<seq<Clause>>, k: nat)
    requires k < |pieces| && pieces[k] != []
    ensures Flatten(pieces) != []
    decreases |pieces|
  {
    if k < |pieces| - 1 {
      FlattenNonEmpty(pieces[..|pieces| - 1], k);
    }
  }

  /** The WHERE text with its arguments, whatever follows that is not AND or OR, selects exactly the
      rows the filter accepts. */
  lemma WhereSelects(f: Filter, row: Row, search: Search, rest: seq<Token>, args: seq<Value>)
    requires IsValid(f) && !Next(rest, And) && !Next(rest, Or)
    ensures EvalOr(Join(WhereParts(WhereClauses(f)), And) + rest, WhereArgs(WhereClauses(f)) + args, row, search)
      == Parsed(Accepts(f, row, search), rest, args)
  {
    hide EvalAnd, EvalOr, AllHold, ClauseSound, Accepts, WhereClauses, Join, WhereParts, WhereArgs;
    WhereMeaning(f, row, search);
    WhereIsNotEmpty(f);
    AllReads(WhereClauses(f), rest, args, row, search);
    OrEnd(Join(WhereParts(WhereClauses(f)), And) + rest, Accepts(f, row, search),
      WhereArgs(WhereClauses(f)) + args, rest, args, row, search);
  }

  /** The COUNT query counts exactly the accepted rows. */
  lemma CountMeansFilter(f: Filter, row: Row, search: Search)
    requires IsValid(f)
    ensures EvalOr(Compile(f).countTokens, Compile(f).countArgs, row, search) == Parsed(Accepts(f, row, search), [], [])
  {
    hide EvalOr, Accepts, WhereClauses, Join, WhereParts, WhereArgs;
    WhereSelects(f, row, search, [], []);
    assert Compile(f).countTokens + [] == Compile(f).countTokens && Compile(f).countArgs + [] == Compile(f).countArgs;
  }

  lemma FlagReads(rules: seq<FocusRule>, rest: seq<Token>, args: seq<Value>, row: Row, search: Search)
    ensures EvalFlag(FlagTokens(FocusTokens(FocusClauses(rules))) + rest,
                     ArgsOfAll(FocusClauses(rules)) + args, row, search)
      == Parsed(Focused(rules, row), rest, args)
  {
    hide EvalOr, FocusClauses, FocusTokens, Focused, AlternativeSound;
    var cs := FocusClauses(rules);
    FocusMeaning(rules, row, search);
    FocusTextIsEmptyIff(rules);
    if cs == [] {
      NoneHolds(row, search);
      NoArgs();
      assert ([Digit(0)] + rest)[1..] == rest && [] + args == args;
    } else {
      var after := [Then, Digit(1), Else, Digit(0), End];
      AnyReads(cs, after + rest, args, row, search);
      var ts := FlagTokens(FocusTokens(cs)) + rest;
      assert ts[2..] == FocusTokens(cs) + (after + rest);
      assert (after + rest)[..5] == after && (after + rest)[5..] == rest;
    }
  }

  /** The page query marks and selects the same rows: the select list takes its own copy of the focus
      arguments first, WHERE takes the rest, LIMIT and OFFSET the last two. */
  lemma PageMeansFilter(f: Filter, row: Row, search: Search)
    requires IsValid(f)
    ensures
      EvalPage(Compile(f).pageTokens, Compile(f).pageArgs, row, search)
      == Selected(Accepts(f, row, search), Focused(f.focusRules, row), f.ascending, EffectivePageSize(f), PageOffset(f))
  {
    hide EvalOr, EvalFlag, Accepts, Focused, WhereClauses, Join, WhereParts, WhereArgs, FocusTokens, FlagTokens,
      ArgsOfAll, IsValid, PageOffset;
    var focus, args := FocusClauses(f.focusRules), WhereArgs(WhereClauses(f));
    var text := Join(WhereParts(WhereClauses(f)), And);
    var size := EffectivePageSize(f);
    var end: seq<Token> := [OrderBy(f.ascending), Limit, Param, Offset, Param];
    var last := [Num(size), Num(PageOffset(f))];
    FlagReads(f.focusRules, [Where] + text + end, args + last, row, search);
    WhereSelects(f, row, search, end, last);
    assert Compile(f).pageTokens == FlagTokens(FocusTokens(focus)) + ([Where] + text + end);
    assert Compile(f).pageArgs == ArgsOfAll(focus) + (args + last);
    assert ([Where] + text + end)[1..] == text + end;
  }

  // ----- totals -----

  /** What the COUNT query returns on a table. */
  function Total(tokens: seq<Token>, args: seq<Value>, table: seq<Row>, search: Search): nat {
    if table == [] then 0
    else
      var r := EvalOr(tokens, args, table[0], search);
      (if r.Parsed? && r.value then 1 else 0) + Total(tokens, args, table[1..], search)
  }

  function CountQuery(f: Filter, table: seq<Row>, search: Search): nat {
    if IsValid(f) then Total(Compile(f).countTokens, Compile(f).countArgs, table, search) else 0
  }

  function InMode(f: Filter, mode: string): Filter {
    f.(focusMode := mode)
  }

  lemma ModesAreKnown()
    ensures FocusModeOf("all") == All && FocusModeOf("only") == Only && FocusModeOf("exclude") == Exclude
  {
    assert Trim("all") == "all" && Trim("only") == "only" && Trim("exclude") == "exclude";
    assert Lower("all") == "all" && Lower("only") == "only" && Lower("exclude") == "exclude";
  }

  /** On every table, focused and unfocused rows add up: the totals of `only` and `exclude` sum to the
      total of `all`. */
  lemma {:induction false} TotalsAddUp(f: Filter, table: seq<Row>, search: Search)
    requires IsValid(InMode(f, "all"))
    ensures CountQuery(InMode(f, "only"), table, search) + CountQuery(InMode(f, "exclude"), table, search)
      == CountQuery(InMode(f, "all"), table, search)
    decreases |table|
  {
    ModesAreKnown();
    hide EvalOr, Compile, FocusModeOf, StatusFilterOf, ValidSessionId, AcceptsPlainly, Focused;
    if table != [] {
      CountMeansFilter(InMode(f, "all"), table[0], search);
      CountMeansFilter(InMode(f, "only"), table[0], search);
      CountMeansFilter(InMode(f, "exclude"), table[0], search);
      assert AcceptsPlainly(InMode(f, "all"), table[0], search) == AcceptsPlainly(InMode(f, "only"), table[0], search)
        == AcceptsPlainly(InMode(f, "exclude"), table[0], search) by {
        PlainIgnoresMode(f, table[0], search);
      }
      TotalsAddUp(f, table[1..], search);
    }
  }

  lemma PlainIgnoresMode(f: Filter, row: Row, search: Search)
    ensures forall mode :: AcceptsPlainly(InMode(f, mode), row, search) == AcceptsPlainly(f, row, search)
  {
  }
}
