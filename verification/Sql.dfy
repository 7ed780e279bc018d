/** The fragment of SQL that the request list is written in: conditions over the requests table as
    tokens, with their arguments bound by position, and what they mean (operator precedence as SQLite's:
    comparison, NOT, AND, OR). */
module Sql {
  import opened LikePattern

  datatype Column =
    | SessionId | Method | Url | Host | Path | ContentType | SearchText
    | Status | Timestamp | Duration | TotalSize

  datatype Value = Text(text: string) | Num(num: int)

  datatype Operator = Equal | AtLeast | AtMost | Below | LikeEscaped | Match

  datatype Token =
    | Col(column: Column) | Op(op: Operator) | Param
    | And | Or | Not | Open | Close | Digit(digit: nat)
    | Case | When | Then | Else | End | Where | OrderBy(ascending: bool) | Limit | Offset

  datatype Row = Row(
    id: nat, session: string, verb: string, url: string, host: string, path: string, contentType: string,
    status: int, timestamp: int, duration: int, requestSize: int, responseSize: int)

  /** Full-text MATCH is left open: any relation between rows and queries. */
  type Search = (Row, string) -> bool

  function TextOf(row: Row, c: Column): string {
    match c
    case SessionId => row.session
    case Method => row.verb
    case Url => row.url
    case Host => row.host
    case Path => row.path
    case ContentType => row.contentType
    case _ => ""
  }

  function NumOf(row: Row, c: Column): int {
    match c
    case Status => row.status
    case Timestamp => row.timestamp
    case Duration => row.duration
    case TotalSize => row.requestSize + row.responseSize
    case _ => 0
  }

  predicate IsNumeric(c: Column) {
    c.Status? || c.Timestamp? || c.Duration? || c.TotalSize?
  }

  predicate WellTyped(c: Column, op: Operator, v: Value) {
    if c.SearchText? then op.Match? && v.Text?
    else if IsNumeric(c) then v.Num? && !op.LikeEscaped? && !op.Match?
    else v.Text? && (op.Equal? || op.LikeEscaped?)
  }

  predicate Holds(row: Row, c: Column, op: Operator, v: Value, search: Search)
    requires WellTyped(c, op, v)
  {
    match op
    case Equal => if IsNumeric(c) then NumOf(row, c) == v.num else TextOf(row, c) == v.text
    case AtLeast => NumOf(row, c) >= v.num
    case AtMost => NumOf(row, c) <= v.num
    case Below => NumOf(row, c) < v.num
    case LikeEscaped => Like(v.text, TextOf(row, c))
    case Match => search(row, v.text)
  }

  // ----- evaluation -----

  datatype Result = Parsed(value: bool, tokens: seq<Token>, args: seq<Value>) | Bad

  predicate Next(tokens: seq<Token>, t: Token) {
    tokens != [] && tokens[0] == t
  }

  function EvalOr(ts: seq<Token>, args: seq<Value>, row: Row, search: Search): (r: Result)
    ensures r.Parsed? ==> |r.tokens| < |ts|
    decreases |ts|, 3
  {
    var left := EvalAnd(ts, args, row, search);
    if left.Parsed? && Next(left.tokens, Or) then
      var right := EvalOr(left.tokens[1..], left.args, row, search);
      if right.Parsed? then Parsed(left.value || right.value, right.tokens, right.args) else Bad
    else left
  }

  function EvalAnd(ts: seq<Token>, args: seq<Value>, row: Row, search: Search): (r: Result)
    ensures r.Parsed? ==> |r.tokens| < |ts|
    decreases |ts|, 2
  {
    var left := EvalNot(ts, args, row, search);
    if left.Parsed? && Next(left.tokens, And) then
      var right := EvalAnd(left.tokens[1..], left.args, row, search);
      if right.Parsed? then Parsed(left.value && right.value, right.tokens, right.args) else Bad
    else left
  }

  function EvalNot(ts: seq<Token>, args: seq<Value>, row: Row, search: Search): (r: Result)
    ensures r.Parsed? ==> |r.tokens| < |ts|
    decreases |ts|, 1
  {
    if Next(ts, Not) then
      var inner := EvalNot(ts[1..], args, row, search);
      if inner.Parsed? then Parsed(!inner.value, inner.tokens, inner.args) else Bad
    else EvalPrimary(ts, args, row, search)
  }

  function EvalPrimary(ts: seq<Token>, args: seq<Value>, row: Row, search: Search): (r: Result)
    ensures r.Parsed? ==> |r.tokens| < |ts|
    decreases |ts|, 0
  {
    if Next(ts, Open) then
      var inner := EvalOr(ts[1..], args, row, search);
      if inner.Parsed? && Next(inner.tokens, Close) then Parsed(inner.value, inner.tokens[1..], inner.args) else Bad
    else if ts != [] && ts[0].Digit? then Parsed(ts[0].digit != 0, ts[1..], args)
    else if |ts| >= 3 && ts[0].Col? && ts[1].Op? && ts[2].Param? && args != []
      && WellTyped(ts[0].column, ts[1].op, args[0]) then
      Parsed(Holds(row, ts[0].column, ts[1].op, args[0], search), ts[3..], args[1..])
    else Bad
  }

  /** CASE WHEN condition THEN 1 ELSE 0 END, or a digit, as the last item of the select list. */
  function EvalFlag(ts: seq<Token>, args: seq<Value>, row: Row, search: Search): Result {
    if |ts| >= 2 && ts[0].Case? && ts[1].When? then
      var c := EvalOr(ts[2..], args, row, search);
      if c.Parsed? && |c.tokens| >= 5 && c.tokens[..5] == [Then, Digit(1), Else, Digit(0), End] then
        Parsed(c.value, c.tokens[5..], c.args)
      else Bad
    else if ts != [] && ts[0].Digit? then Parsed(ts[0].digit != 0, ts[1..], args)
    else Bad
  }

  /** What a page statement says about one row: whether it is selected and with which flag, and the
      order, limit and offset that all rows share. */
  datatype Selection = Selected(keep: bool, flag: bool, ascending: bool, limit: int, offset: int) | Malformed

  function EvalPage(ts: seq<Token>, args: seq<Value>, row: Row, search: Search): Selection {
    var flag := EvalFlag(ts, args, row, search);
    if flag.Parsed? && Next(flag.tokens, Where) then
      var keep := EvalOr(flag.tokens[1..], flag.args, row, search);
      if keep.Parsed? && |keep.tokens| == 5 && keep.tokens[0].OrderBy?
        && keep.tokens[1..] == [Limit, Param, Offset, Param]
        && |keep.args| == 2 && keep.args[0].Num? && keep.args[1].Num? then
        Selected(keep.value, flag.value, keep.tokens[0].ascending, keep.args[0].num, keep.args[1].num)
      else Malformed
    else Malformed
  }

  // ----- reading back a chain -----

  datatype Comparison = Comparison(column: Column, op: Operator, value: Value)

  function ComparisonTokens(c: Comparison): seq<Token> {
    [Col(c.column), Op(c.op), Param]
  }

  lemma ComparisonReads(c: Comparison, rest: seq<Token>, args: seq<Value>, row: Row, search: Search)
    requires WellTyped(c.column, c.op, c.value)
    ensures EvalNot(ComparisonTokens(c) + rest, [c.value] + args, row, search)
      == Parsed(Holds(row, c.column, c.op, c.value, search), rest, args)
  {
    var ts := ComparisonTokens(c) + rest;
    assert ts[3..] == rest && ([c.value] + args)[1..] == args;
    hide WellTyped, Holds;
  }

  lemma ParenReads(
    inner: seq<Token>, value: bool, args: seq<Value>, rest: seq<Token>, args': seq<Value>, row: Row, search: Search)
    requires EvalOr(inner + [Close] + rest, args, row, search) == Parsed(value, [Close] + rest, args')
    ensures EvalNot([Open] + inner + [Close] + rest, args, row, search) == Parsed(value, rest, args')
    ensures EvalNot([Not, Open] + inner + [Close] + rest, args, row, search) == Parsed(!value, rest, args')
  {
    hide EvalOr;
    Enclosed(inner, rest);
  }

  lemma Enclosed(inner: seq<Token>, rest: seq<Token>)
    ensures
      var ts := [Open] + inner + [Close] + rest;
      ts[0] == Open && ts[1..] == inner + [Close] + rest && ([Close] + rest)[1..] == rest
        && [Not, Open] + inner + [Close] + rest == [Not] + ts && ([Not] + ts)[1..] == ts
  {
  }

  /** One link of an AND chain, and its end. */
  lemma AndLink(
    head: seq<Token>, value: bool, args: seq<Value>, tail: seq<Token>, args': seq<Value>, row: Row, search: Search)
    requires EvalNot(head + [And] + tail, args, row, search) == Parsed(value, [And] + tail, args')
    requires EvalAnd(tail, args', row, search).Parsed?
    ensures
      var r := EvalAnd(tail, args', row, search);
      EvalAnd(head + [And] + tail, args, row, search) == Parsed(value && r.value, r.tokens, r.args)
  {
    assert ([And] + tail)[1..] == tail;
    hide EvalNot;
  }

  lemma AndEnd(ts: seq<Token>, value: bool, args: seq<Value>, rest: seq<Token>, args': seq<Value>, row: Row,
    search: Search)
    requires EvalNot(ts, args, row, search) == Parsed(value, rest, args') && !Next(rest, And)
    ensures EvalAnd(ts, args, row, search) == Parsed(value, rest, args')
  {
    hide EvalNot;
  }

  lemma OrLink(
    head: seq<Token>, value: bool, args: seq<Value>, tail: seq<Token>, args': seq<Value>, row: Row, search: Search)
    requires EvalAnd(head + [Or] + tail, args, row, search) == Parsed(value, [Or] + tail, args')
    requires EvalOr(tail, args', row, search).Parsed?
    ensures
      var r := EvalOr(tail, args', row, search);
      EvalOr(head + [Or] + tail, args, row, search) == Parsed(value || r.value, r.tokens, r.args)
  {
    assert ([Or] + tail)[1..] == tail;
    hide EvalAnd;
  }

  lemma OrEnd(ts: seq<Token>, value: bool, args: seq<Value>, rest: seq<Token>, args': seq<Value>, row: Row,
    search: Search)
    requires EvalAnd(ts, args, row, search) == Parsed(value, rest, args') && !Next(rest, Or)
    ensures EvalOr(ts, args, row, search) == Parsed(value, rest, args')
  {
    hide EvalAnd;
  }
}
