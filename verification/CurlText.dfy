/** The cURL command line of a request (cli/webui/app.js:611-633, 681-704), read back by the token and
    quoting rules of sections 2.2.1, 2.2.2 and 2.3 of POSIX.1-2017 XCU. */
module CurlText {
  import opened Captures
  import opened RequestQuery
  import opened Texts

  // ----- how a shell reads a simple command -----

  datatype Lexed = Words(words: seq<string>) | NotSimple

  /** Characters that stand for themselves outside quotes. Everything else starts an operator, an
      expansion, a comment or another kind of quoting, and is not needed here. */
  predicate IsPlain(c: char) {
    'a' <= c <= 'z' || 'A' <= c <= 'Z' || '0' <= c <= '9' || c == '-' || c == '_' || c == '.' || c == '/' || c == ':'
    || c == ',' || c == '+' || c == '@' || c == '%'
  }

  function After(done: seq<string>, rest: Lexed): Lexed {
    if rest.Words? then Words(done + rest.words) else NotSimple
  }

  /** `word` is the token being delimited, if one has begun. */
  function Lex(s: string, word: Option<string>): Lexed
    decreases |s|
  {
    var so := if word.Some? then word.value else "";
    if s == "" then Words(if word.Some? then [so] else [])
    else if s[0] == ' ' || s[0] == '\t' then After(if word.Some? then [so] else [], Lex(s[1..], None))
    else if s[0] == '\\' then
      if |s| == 1 then NotSimple
      else if s[1] == '\n' then Lex(s[2..], word)
      else Lex(s[2..], Some(so + [s[1]]))
    else if s[0] == '\'' then LexQuoted(s[1..], so)
    else if IsPlain(s[0]) then Lex(s[1..], Some(so + [s[0]]))
    else NotSimple
  }

  /** Inside single quotes every character but the closing quote stands for itself. */
  function LexQuoted(s: string, so: string): Lexed
    decreases |s|
  {
    if s == "" then NotSimple
    else if s[0] == '\'' then Lex(s[1..], Some(so))
    else LexQuoted(s[1..], so + [s[0]])
  }

  // ----- quoting -----

  /** Every quote is replaced by: close, an escaped quote, open. */
  function Escaped(value: string): string {
    if value == "" then ""
    else (if value[0] == '\'' then "'\\''" else [value[0]]) + Escaped(value[1..])
  }

  function ShellQuote(value: string): string {
    "'" + Escaped(value) + "'"
  }

  lemma {:induction false} QuotedReads(value: string, rest: string, so: string)
    ensures LexQuoted(Escaped(value) + ("'" + rest), so) == Lex(rest, Some(so + value))
    decreases |value|
  {
    hide Lex, LexQuoted;
    if value == "" {
      assert Escaped(value) + ("'" + rest) == "'" + rest && so + value == so;
      QuoteCloses(rest, so);
    } else {
      var more := Escaped(value[1..]) + ("'" + rest);
      if value[0] == '\'' {
        assert Escaped(value) + ("'" + rest) == "'" + ("\\'" + ("'" + more));
        QuoteCloses("\\'" + ("'" + more), so);
        EscapedQuote("'" + more, so);
        QuoteOpens(more, Some(so + "'"));
        QuotedReads(value[1..], rest, so + "'");
        assert so + "'" + value[1..] == so + value;
      } else {
        assert Escaped(value) + ("'" + rest) == [value[0]] + more;
        QuotedCharacter(value[0], more, so);
        QuotedReads(value[1..], rest, so + [value[0]]);
        assert so + [value[0]] + value[1..] == so + value;
      }
    }
  }

  lemma QuoteCloses(rest: string, so: string)
    ensures LexQuoted("'" + rest, so) == Lex(rest, Some(so))
  {
    hide Lex;
    assert ("'" + rest)[1..] == rest;
  }

  lemma QuotedCharacter(c: char, rest: string, so: string)
    requires c != '\''
    ensures LexQuoted([c] + rest, so) == LexQuoted(rest, so + [c])
  {
    hide Lex;
    assert ([c] + rest)[1..] == rest;
  }

  lemma QuoteOpens(rest: string, word: Option<string>)
    ensures Lex("'" + rest, word) == LexQuoted(rest, if word.Some? then word.value else "")
  {
    hide LexQuoted;
    assert ("'" + rest)[1..] == rest;
  }

  lemma EscapedQuote(rest: string, so: string)
    ensures Lex("\\'" + rest, Some(so)) == Lex(rest, Some(so + "'"))
  {
    hide LexQuoted;
    assert ("\\'" + rest)[2..] == rest;
  }

  // ----- parts and the words they stand for -----

  predicate PlainWord(part: string) {
    part != "" && forall c | c in part :: IsPlain(c)
  }

  predicate StandsFor(part: string, word: string) {
    part == ShellQuote(word) || (part == word && PlainWord(word))
  }

  predicate AllStandFor(parts: seq<string>, words: seq<string>) {
    |parts| == |words| && forall i | 0 <= i < |parts| :: StandsFor(parts[i], words[i])
  }

  lemma {:induction false} PlainReads(part: string, rest: string, so: string)
    requires forall c | c in part :: IsPlain(c)
    ensures Lex(part + rest, Some(so)) == Lex(rest, Some(so + part))
    decreases |part|
  {
    hide Lex, IsPlain;
    if part == "" {
      assert part + rest == rest && so + part == so;
    } else {
      assert part + rest == [part[0]] + (part[1..] + rest);
      PlainCharacter(part[0], part[1..] + rest, Some(so));
      PlainReads(part[1..], rest, so + [part[0]]);
      assert so + [part[0]] + part[1..] == so + part;
    }
  }

  lemma PlainCharacter(c: char, rest: string, word: Option<string>)
    requires IsPlain(c)
    ensures Lex([c] + rest, word) == Lex(rest, Some((if word.Some? then word.value else "") + [c]))
  {
    hide LexQuoted;
    assert ([c] + rest)[1..] == rest;
  }

  lemma QuoteAndRest(word: string, rest: string)
    ensures ShellQuote(word) + rest == "'" + (Escaped(word) + ("'" + rest))
  {
    hide Escaped;
  }

  lemma QuotedPartReads(word: string, rest: string)
    ensures Lex(ShellQuote(word) + rest, None) == Lex(rest, Some(word))
  {
    hide Lex, LexQuoted, Escaped, ShellQuote;
    QuoteAndRest(word, rest);
    QuoteOpens(Escaped(word) + ("'" + rest), None);
    QuotedReads(word, rest, "");
    NothingBefore(word);
  }

  lemma NothingBefore(text: string)
    ensures "" + text == text
  {
  }

  lemma PlainPartReads(part: string, rest: string)
    requires PlainWord(part)
    ensures Lex(part + rest, None) == Lex(rest, Some(part))
  {
    hide Lex, IsPlain;
    var first, others := part[0], part[1..];
    FirstAndRest(part, rest);
    PlainCharacter(first, others + rest, None);
    PlainReads(others, rest, [first]);
    NothingBefore([first]);
  }

  lemma FirstAndRest(part: string, rest: string)
    requires part != ""
    ensures part + rest == [part[0]] + (part[1..] + rest) && [part[0]] + part[1..] == part
  {
  }

  lemma PartReads(part: string, word: string, rest: string)
    requires StandsFor(part, word)
    ensures Lex(part + rest, None) == Lex(rest, Some(word))
  {
    hide Lex, PlainWord, ShellQuote;
    if part == ShellQuote(word) {
      QuotedPartReads(word, rest);
    } else {
      PlainPartReads(word, rest);
    }
  }

  // ----- wrapping -----

  /** What comes before part `i`: a blank after a flag, and a line continuation before the next flag.
      From the third line on, an empty second part is left out with its blank. */
  function Gap(i: nat, part: string): string {
    if i == 0 then ""
    else if i % 2 == 0 then " \\\n  "
    else if i >= 3 && part == "" then ""
    else " "
  }

  function Wrapped(parts: seq<string>): string {
    if parts == [] then ""
    else
      var n := |parts| - 1;
      Wrapped(parts[..n]) + (Gap(n, parts[n]) + parts[n])
  }

  function Joined(lines: seq<string>, separator: string): string {
    if lines == [] then ""
    else if |lines| == 1 then lines[0]
    else Joined(lines[..|lines| - 1], separator) + (separator + lines[|lines| - 1])
  }

  lemma JoinedMore(lines: seq<string>, line: string, separator: string)
    requires lines != []
    ensures Joined(lines + [line], separator) == Joined(lines, separator) + (separator + line)
  {
    assert (lines + [line])[..|lines|] == lines;
  }

  lemma WrappedMore(parts: seq<string>, n: nat)
    requires n < |parts|
    ensures Wrapped(parts[..n + 1]) == Wrapped(parts[..n]) + (Gap(n, parts[n]) + parts[n])
  {
    hide Gap;
    assert parts[..n + 1][..n] == parts[..n];
  }

  lemma FirstPart(parts: seq<string>)
    requires parts != []
    ensures Wrapped(parts[..1]) == parts[0]
    ensures |parts| > 1 ==> Wrapped(parts[..2]) == parts[0] + (" " + parts[1])
  {
    WrappedMore(parts, 0);
    assert parts[..0] == [] && Wrapped([]) == "";
    if |parts| > 1 {
      WrappedMore(parts, 1);
    }
  }

  method WrapCurlParts(parts: seq<string>) returns (text: string)
    ensures text == Wrapped(parts)
  {
    hide Joined, Wrapped, Gap;
    if |parts| <= 2 {
      text := JoinParts(parts);
      return;
    }
    FirstPart(parts);
    var lines := [parts[0] + " " + parts[1]];
    assert parts[0] + " " + parts[1] == parts[0] + (" " + parts[1]);
    assert Joined(lines, " \\\n") == parts[0] + " " + parts[1] by { JoinedOne(parts[0] + " " + parts[1], " \\\n"); }
    var index := 2;
    while index < |parts|
      invariant 2 <= index && index % 2 == 0 && lines != []
      invariant Joined(lines, " \\\n") == Wrapped(if index < |parts| then parts[..index] else parts)
      decreases |parts| - index
    {
      var second := if index + 1 < |parts| then parts[index + 1] else "";
      var line := "  " + parts[index] + (if second != "" then " " + second else "");
      JoinedMore(lines, line, " \\\n");
      LineWraps(parts, index);
      lines := lines + [line];
      index := index + 2;
    }
    text := Joined(lines, " \\\n");
  }

  lemma JoinedOne(line: string, separator: string)
    ensures Joined([line], separator) == line
  {
  }

  method JoinParts(parts: seq<string>) returns (text: string)
    requires |parts| <= 2
    ensures text == Wrapped(parts)
  {
    text := Joined(parts, " ");
    if |parts| == 0 {
      NothingWrapped();
    } else {
      hide Wrapped;
      FirstPart(parts);
      if |parts| == 1 {
        assert parts[..1] == parts;
      } else {
        assert parts[..2] == parts && [parts[0]] + [parts[1]] == parts;
        hide Joined;
        JoinedOne(parts[0], " ");
        JoinedMore([parts[0]], parts[1], " ");
      }
    }
  }

  lemma NothingWrapped()
    ensures Wrapped([]) == ""
  {
  }

  /** One line of the loop is two parts with what comes before them. */
  lemma LineWraps(parts: seq<string>, i: nat)
    requires 2 <= i < |parts| && i % 2 == 0
    ensures
      var second := if i + 1 < |parts| then parts[i + 1] else "";
      var line := "  " + parts[i] + (if second != "" then " " + second else "");
      Wrapped(if i + 2 < |parts| then parts[..i + 2] else parts) == Wrapped(parts[..i]) + (" \\\n" + line)
  {
    hide Wrapped, Gap;
    GapOfFlag(i, parts[i]);
    if i + 1 < |parts| {
      GapOfValue(i + 1, parts[i + 1]);
      TwoPartsWrap(parts, i, " \\\n", "  ");
    } else {
      OnePartWraps(parts, i, " \\\n", "  ");
    }
  }

  lemma TwoPartsWrap(parts: seq<string>, i: nat, a: string, b: string)
    requires i + 1 < |parts| && Gap(i, parts[i]) == a + b
    ensures Wrapped(if i + 2 < |parts| then parts[..i + 2] else parts)
      == Wrapped(parts[..i]) + (a + (b + parts[i] + (Gap(i + 1, parts[i + 1]) + parts[i + 1])))
  {
    hide Wrapped, Gap;
    WrappedMore(parts, i);
    WrappedMore(parts, i + 1);
    assert i + 2 == |parts| ==> parts[..i + 2] == parts;
    var tail := Gap(i + 1, parts[i + 1]) + parts[i + 1];
    OneLineMore(Wrapped(parts[..i]), Wrapped(parts[..i + 1]), Gap(i, parts[i]), parts[i], a, b,
      Wrapped(parts[..i + 1]) + tail, tail);
  }

  lemma OnePartWraps(parts: seq<string>, i: nat, a: string, b: string)
    requires i + 1 == |parts| && Gap(i, parts[i]) == a + b
    ensures Wrapped(parts) == Wrapped(parts[..i]) + (a + (b + parts[i] + ""))
  {
    hide Wrapped, Gap;
    WrappedMore(parts, i);
    assert parts[..i + 1] == parts;
    NothingMore(Wrapped(parts));
    OneLineMore(Wrapped(parts[..i]), Wrapped(parts), Gap(i, parts[i]), parts[i], a, b, Wrapped(parts), "");
  }

  lemma NothingMore(text: string)
    ensures text + "" == text
  {
  }

  lemma OneLineMore(
    before: string, flag: string, gap: string, part: string, a: string, b: string, after: string, tail: string)
    requires flag == before + (gap + part) && gap == a + b && after == flag + tail
    ensures after == before + (a + (b + part + tail))
  {
  }

  lemma GapOfFlag(i: nat, part: string)
    requires i >= 2 && i % 2 == 0
    ensures Gap(i, part) == " \\\n" + "  "
  {
  }

  lemma GapOfValue(i: nat, part: string)
    requires i >= 3 && i % 2 == 1
    ensures Gap(i, part) + part == (if part != "" then " " + part else "")
  {
  }

  lemma GapEndsWord(i: nat, part: string, rest: string, word: string)
    requires i > 0 && part != ""
    ensures Lex(Gap(i, part) + rest, Some(word)) == After([word], Lex(rest, None))
  {
    hide LexQuoted;
    if i % 2 == 0 {
      assert (" \\\n  " + rest)[1..] == "\\\n  " + rest;
      BlanksOfALine(rest);
    } else {
      assert (" " + rest)[1..] == rest;
    }
  }

  lemma BlanksOfALine(rest: string)
    ensures Lex("\\\n  " + rest, None) == Lex(rest, None)
  {
    hide LexQuoted;
    assert ("\\\n  " + rest)[2..] == " " + (" " + rest);
    OneBlank(" " + rest);
    OneBlank(rest);
  }

  lemma OneBlank(rest: string)
    ensures Lex(" " + rest, None) == Lex(rest, None)
  {
    hide LexQuoted;
    assert (" " + rest)[1..] == rest;
    var lexed := Lex(rest, None);
    assert lexed.Words? ==> [] + lexed.words == lexed.words;
  }

  lemma StandsForSomething(part: string, word: string)
    requires StandsFor(part, word)
    ensures part != ""
  {
  }

  lemma {:induction false} WrappedReads(parts: seq<string>, words: seq<string>, rest: string)
    requires AllStandFor(parts, words) && parts != []
    ensures Lex(Wrapped(parts) + rest, None) == After(words[..|words| - 1], Lex(rest, Some(words[|words| - 1])))
    decreases |parts|
  {
    hide Lex, StandsFor, After, Wrapped, Gap;
    var n := |parts| - 1;
    PartReads(parts[n], words[n], rest);
    StandsForSomething(parts[n], words[n]);
    if n == 0 {
      FirstPart(parts);
      assert parts[..1] == parts && words[..0] == [];
      AfterNothing(Lex(rest, Some(words[0])));
    } else {
      LastPart(parts, rest);
      WrappedReads(parts[..n], words[..n], Gap(n, parts[n]) + (parts[n] + rest));
      GapEndsWord(n, parts[n], parts[n] + rest, words[n - 1]);
      assert words[..n] == words[..n - 1] + [words[n - 1]];
      AfterTwice(words[..n - 1], words[n - 1], Lex(rest, Some(words[n])));
    }
  }

  lemma LastPart(parts: seq<string>, rest: string)
    requires parts != []
    ensures
      var n := |parts| - 1;
      Wrapped(parts) + rest == Wrapped(parts[..n]) + (Gap(n, parts[n]) + (parts[n] + rest))
  {
    hide Gap, Wrapped;
    var n := |parts| - 1;
    assert parts[..n + 1] == parts;
    WrappedMore(parts, n);
    ToTheRight(Wrapped(parts[..n]), Gap(n, parts[n]), parts[n], rest);
  }

  lemma ToTheRight(a: string, b: string, c: string, d: string)
    ensures (a + (b + c)) + d == a + (b + (c + d))
  {
  }

  lemma AfterNothing(rest: Lexed)
    ensures After([], rest) == rest
  {
    assert rest.Words? ==> [] + rest.words == rest.words;
  }

  lemma AfterTwice(done: seq<string>, word: string, rest: Lexed)
    ensures After(done, After([word], rest)) == After(done + [word], rest)
  {
    assert rest.Words? ==> done + ([word] + rest.words) == (done + [word]) + rest.words;
  }

  /** The shell reads exactly the words back that the parts stand for, whatever is in them. */
  lemma WrappedRoundTrip(parts: seq<string>, words: seq<string>)
    requires AllStandFor(parts, words)
    ensures Lex(Wrapped(parts), None) == Words(words)
  {
    hide StandsFor, Wrapped;
    if parts == [] {
      NothingWrapped();
    } else {
      WrappedReads(parts, words, "");
      assert Wrapped(parts) + "" == Wrapped(parts);
      assert words == words[..|words| - 1] + [words[|words| - 1]];
    }
  }

  // ----- the command of a request -----

  datatype Body = Body(
    encoding: string, truncated: bool, displayTruncated: bool, readError: string, capturedSize: int, data: string)

  /** One header name with its values; a value may be missing. */
  datatype Header = Header(name: string, values: seq<Option<string>>)

  /** `headers` are in the order in which their names sort. */
  datatype Detail = Detail(verb: string, url: string, headers: seq<Header>, body: Option<Body>)

  predicate CanBeCopied(body: Option<Body>) {
    && body.Some? && body.value.encoding == "utf8" && !body.value.truncated && !body.value.displayTruncated
    && body.value.readError == "" && body.value.capturedSize > 0
  }

  predicate WasCaptured(body: Option<Body>) {
    body.Some? && body.value.capturedSize > 0
  }

  predicate Shown(h: Header) {
    h.name != "" && Lower(h.name) != "content-length"
  }

  function ValueArguments(name: string, values: seq<Option<string>>): seq<string> {
    if values == [] then []
    else
      var last := values[|values| - 1];
      ValueArguments(name, values[..|values| - 1]) + (if last.Some? then ["-H", name + ": " + last.value] else [])
  }

  function HeaderArguments(headers: seq<Header>): seq<string> {
    if headers == [] then []
    else
      var last := headers[|headers| - 1];
      HeaderArguments(headers[..|headers| - 1]) + (if Shown(last) then ValueArguments(last.name, last.values) else [])
  }

  function Verb(detail: Detail): string {
    Upper(if detail.verb == "" then "GET" else detail.verb)
  }

  /** The argument list that runs the request again. */
  function CurlArguments(detail: Detail): seq<string> {
    ["curl", detail.url]
    + (if Verb(detail) != "GET" || CanBeCopied(detail.body) then ["-X", Verb(detail)] else [])
    + HeaderArguments(detail.headers)
    + (if CanBeCopied(detail.body) then ["--data-raw", detail.body.value.data] else [])
  }

  lemma PairStandsFor(parts: seq<string>, words: seq<string>, flag: string, value: string)
    requires AllStandFor(parts, words) && PlainWord(flag)
    ensures AllStandFor(parts + [flag, ShellQuote(value)], words + [flag, value])
  {
    hide ShellQuote, PlainWord;
  }

  method PushHeader(start: seq<string>, h: Header, ghost words: seq<string>) returns (parts: seq<string>)
    requires AllStandFor(start, words) && Shown(h)
    ensures AllStandFor(parts, words + ValueArguments(h.name, h.values))
  {
    hide AllStandFor, ShellQuote, Lower;
    parts := start;
    assert h.values[..0] == [] && words + [] == words;
    for i := 0 to |h.values|
      invariant AllStandFor(parts, words + ValueArguments(h.name, h.values[..i]))
    {
      assert h.values[..i + 1][..i] == h.values[..i];
      ghost var before := words + ValueArguments(h.name, h.values[..i]);
      if h.values[i].Some? {
        var line := h.name + ": " + h.values[i].value;
        PairStandsFor(parts, before, "-H", line);
        parts := parts + ["-H", ShellQuote(line)];
        assert before + ["-H", line] == words + (ValueArguments(h.name, h.values[..i]) + ["-H", line]);
      } else {
        assert before == words + (ValueArguments(h.name, h.values[..i]) + []);
      }
    }
    assert h.values[..|h.values|] == h.values;
  }

  lemma FirstParts(url: string)
    ensures AllStandFor(["curl", ShellQuote(url)], ["curl", url])
  {
  }

  method CurlFromRequestDetail(detail: Detail) returns (command: string, warned: bool)
    ensures Lex(command, None) == Words(CurlArguments(detail))
    ensures warned <==> WasCaptured(detail.body) && !CanBeCopied(detail.body)
  {
    hide AllStandFor, ShellQuote, Lex, Upper, Lower, Wrapped, HeaderArguments, CanBeCopied, WasCaptured;
    warned := false;
    var verb := Verb(detail);
    var parts := ["curl", ShellQuote(detail.url)];
    FirstParts(detail.url);
    ghost var words := ["curl", detail.url];
    if verb != "GET" || CanBeCopied(detail.body) {
      PairStandsFor(parts, words, "-X", verb);
      parts := parts + ["-X", ShellQuote(verb)];
      words := words + ["-X", verb];
    }
    ghost var opening := words;
    parts := PushHeaders(parts, detail.headers, words);
    words := words + HeaderArguments(detail.headers);
    if CanBeCopied(detail.body) {
      assert detail.body.Some? by { Copyable(detail.body); }
      PairStandsFor(parts, words, "--data-raw", detail.body.value.data);
      parts := parts + ["--data-raw", ShellQuote(detail.body.value.data)];
      words := words + ["--data-raw", detail.body.value.data];
    } else if WasCaptured(detail.body) {
      warned := true;
    }
    assert words == CurlArguments(detail);
    command := WrapCurlParts(parts);
    WrappedRoundTrip(parts, words);
  }

  lemma Copyable(body: Option<Body>)
    requires CanBeCopied(body)
    ensures body.Some?
  {
  }

  method PushHeaders(start: seq<string>, headers: seq<Header>, ghost words: seq<string>) returns (parts: seq<string>)
    requires AllStandFor(start, words)
    ensures AllStandFor(parts, words + HeaderArguments(headers))
  {
    hide AllStandFor, ShellQuote, Lower, ValueArguments;
    parts := start;
    assert headers[..0] == [] && words + [] == words;
    for i := 0 to |headers|
      invariant AllStandFor(parts, words + HeaderArguments(headers[..i]))
    {
      assert headers[..i + 1][..i] == headers[..i];
      var h := headers[i];
      ghost var before := words + HeaderArguments(headers[..i]);
      if h.name == "" || Lower(h.name) == "content-length" {
        assert before == words + (HeaderArguments(headers[..i]) + []);
        continue;
      }
      parts := PushHeader(parts, h, before);
      assert before + ValueArguments(h.name, h.values)
        == words + (HeaderArguments(headers[..i]) + ValueArguments(h.name, h.values));
    }
    assert headers[..|headers|] == headers;
  }

  // ----- what curl makes of the arguments -----

  /** A request as curl sends it: method, URL, header lines, and data. The first argument is the URL. */
  datatype Sent = Sent(verb: string, url: string, lines: seq<string>, data: Option<string>)

  /** The options used here, from left to right: -X sets the method, each -H adds a line, --data-raw sets the
      data. */
  function Apply(r: Sent, chosen: bool, options: seq<string>): Option<(Sent, bool)>
    decreases |options|
  {
    if options == [] then Some((r, chosen))
    else if |options| == 1 then None
    else if options[0] == "-X" then Apply(r.(verb := options[1]), true, options[2..])
    else if options[0] == "-H" then Apply(r.(lines := r.lines + [options[1]]), chosen, options[2..])
    else if options[0] == "--data-raw" then Apply(r.(data := Some(options[1])), chosen, options[2..])
    else None
  }

  /** Without -X the method is POST when there is data and GET otherwise. */
  function Curl(arguments: seq<string>): Option<Sent> {
    if |arguments| < 2 || arguments[0] != "curl" then None
    else
      match Apply(Sent("", arguments[1], [], None), false, arguments[2..])
      case None => None
      case Some((r, chosen)) =>
        Some(if chosen then r else if r.data.Some? then r.(verb := "POST") else r.(verb := "GET"))
  }

  /** The header lines of a request: every value of every header but those with no name and the length. */
  function Lines(headers: seq<Header>): seq<string> {
    if headers == [] then []
    else
      (if headers[0].name == "" || SameLetters(headers[0].name, "content-length") then []
       else ValueLines(headers[0].name, headers[0].values)) + Lines(headers[1..])
  }

  function ValueLines(name: string, values: seq<Option<string>>): seq<string> {
    if values == [] then []
    else (if values[0].Some? then [name + ": " + values[0].value] else []) + ValueLines(name, values[1..])
  }

  /** Options that only add these lines. */
  ghost predicate Adds(options: seq<string>, lines: seq<string>) {
    forall r, chosen, rest :: Apply(r, chosen, options + rest) == Apply(r.(lines := r.lines + lines), chosen, rest)
  }

  lemma AddsNothing()
    ensures Adds([], [])
  {
    hide Apply;
    forall r: Sent, chosen, rest: seq<string>
      ensures Apply(r, chosen, [] + rest) == Apply(r.(lines := r.lines + []), chosen, rest)
    {
      assert [] + rest == rest && r.lines + [] == r.lines;
    }
  }

  lemma AddsLine(line: string)
    ensures Adds(["-H", line], [line])
  {
    forall r: Sent, chosen, rest: seq<string>
      ensures Apply(r, chosen, ["-H", line] + rest) == Apply(r.(lines := r.lines + [line]), chosen, rest)
    {
      assert (["-H", line] + rest)[2..] == rest;
    }
  }

  lemma AddsBoth(a: seq<string>, x: seq<string>, b: seq<string>, y: seq<string>)
    requires Adds(a, x) && Adds(b, y)
    ensures Adds(a + b, x + y)
  {
    hide Apply;
    forall r: Sent, chosen, rest: seq<string>
      ensures Apply(r, chosen, (a + b) + rest) == Apply(r.(lines := r.lines + (x + y)), chosen, rest)
    {
      assert (a + b) + rest == a + (b + rest);
      assert (r.lines + x) + y == r.lines + (x + y);
      assert Apply(r, chosen, a + (b + rest)) == Apply(r.(lines := r.lines + x), chosen, b + rest);
    }
  }

  lemma ValueLinesCons(name: string, value: Option<string>, rest: seq<Option<string>>)
    ensures ValueLines(name, [value] + rest)
      == (if value.Some? then [name + ": " + value.value] else []) + ValueLines(name, rest)
    ensures ValueLines(name, []) == []
  {
    assert ([value] + rest)[1..] == rest;
  }

  lemma {:induction false} ValueLinesSnoc(name: string, values: seq<Option<string>>, last: Option<string>)
    ensures ValueLines(name, values + [last])
      == ValueLines(name, values) + (if last.Some? then [name + ": " + last.value] else [])
    decreases |values|
  {
    hide ValueLines;
    ValueLinesCons(name, last, []);
    var more := if last.Some? then [name + ": " + last.value] else [];
    if values == [] {
      assert values + [last] == [last] + [] && [] + more == more == more + [];
    } else {
      var first, rest := values[0], values[1..];
      assert values == [first] + rest && values + [last] == [first] + (rest + [last]);
      ValueLinesSnoc(name, rest, last);
      ValueLinesCons(name, first, rest);
      ValueLinesCons(name, first, rest + [last]);
      ThreeLists(if first.Some? then [name + ": " + first.value] else [], ValueLines(name, rest), more);
    }
  }

  lemma ThreeLists(a: seq<string>, b: seq<string>, c: seq<string>)
    ensures a + (b + c) == (a + b) + c
  {
  }

  lemma {:induction false} ValuesAdd(name: string, values: seq<Option<string>>)
    ensures Adds(ValueArguments(name, values), ValueLines(name, values))
    decreases |values|
  {
    hide Adds;
    AddsNothing();
    if values != [] {
      var front, last := values[..|values| - 1], values[|values| - 1];
      assert values == front + [last];
      ValuesAdd(name, front);
      ValueLinesSnoc(name, front, last);
      if last.Some? {
        AddsLine(name + ": " + last.value);
        AddsBoth(ValueArguments(name, front), ValueLines(name, front), ["-H", name + ": " + last.value],
          [name + ": " + last.value]);
      } else {
        AddsBoth(ValueArguments(name, front), ValueLines(name, front), [], []);
      }
    }
  }

  lemma LinesCons(h: Header, rest: seq<Header>)
    ensures Lines([h] + rest) == Lines([h]) + Lines(rest) && Lines([]) == []
  {
    hide ValueLines;
    assert ([h] + rest)[1..] == rest && [h][1..] == [];
    var own := if h.name == "" || SameLetters(h.name, "content-length") then [] else ValueLines(h.name, h.values);
    assert own + [] == own;
  }

  lemma {:induction false} LinesSnoc(headers: seq<Header>, last: Header)
    ensures Lines(headers + [last]) == Lines(headers) + Lines([last])
    decreases |headers|
  {
    hide Lines;
    LinesCons(last, []);
    if headers == [] {
      assert headers + [last] == [last] && [] + Lines([last]) == Lines([last]);
    } else {
      var first, rest := headers[0], headers[1..];
      assert headers == [first] + rest && headers + [last] == [first] + (rest + [last]);
      LinesSnoc(rest, last);
      LinesCons(first, rest);
      LinesCons(first, rest + [last]);
      ThreeLists(Lines([first]), Lines(rest), Lines([last]));
    }
  }

  lemma OneHeader(h: Header)
    ensures Lines([h]) == if Shown(h) then ValueLines(h.name, h.values) else []
  {
    LowerIff("content-length", h.name);
    hide Lower, ValueLines;
    assert Lines([]) == [];
    assert SameLetters("content-length", h.name) == SameLetters(h.name, "content-length");
  }

  lemma {:induction false} HeadersAdd(headers: seq<Header>)
    ensures Adds(HeaderArguments(headers), Lines(headers))
    decreases |headers|
  {
    hide Adds, ValueArguments, ValueLines, Shown;
    AddsNothing();
    if headers != [] {
      var front, last := headers[..|headers| - 1], headers[|headers| - 1];
      assert headers == front + [last];
      HeadersAdd(front);
      LinesSnoc(front, last);
      OneHeader(last);
      ValuesAdd(last.name, last.values);
      AddsBoth(HeaderArguments(front), Lines(front), if Shown(last) then ValueArguments(last.name, last.values) else [],
        if Shown(last) then ValueLines(last.name, last.values) else []);
    }
  }

  /** Run by curl, the copied arguments send the request again: its method in capitals, its URL, its header
      lines in order, and its body when that can be copied. */
  lemma CurlSendsAgain(detail: Detail)
    ensures
      var verb := if detail.verb == "" then "GET" else Upper(detail.verb);
      Curl(CurlArguments(detail)) == Some(Sent(
        verb, detail.url, Lines(detail.headers),
        if CanBeCopied(detail.body) then Some(detail.body.value.data) else None))
  {
    var copied := CanBeCopied(detail.body);
    assert copied ==> detail.body.Some?;
    assert Upper("GET") == "GET";
    var data := if copied then ["--data-raw", detail.body.value.data] else [];
    hide CanBeCopied, Upper, HeaderArguments, Lines, Curl, Adds;
    HeadersAdd(detail.headers);
    OptionsSend(detail.url, Verb(detail) != "GET" || copied, Verb(detail), HeaderArguments(detail.headers),
      Lines(detail.headers), data);
  }

  lemma OptionsSend(
    url: string, shown: bool, verb: string, headers: seq<string>, lines: seq<string>, data: seq<string>)
    requires Adds(headers, lines) && (data == [] || (|data| == 2 && data[0] == "--data-raw"))
    ensures
      var first := if shown then ["-X", verb] else [];
      Curl(["curl", url] + first + headers + data) == Some(Sent(
        if shown then verb else if data == [] then "GET" else "POST", url, lines,
        if data == [] then None else Some(data[1])))
  {
    var first := if shown then ["-X", verb] else [];
    OptionsBehind("curl", url, first, headers, data);
    hide Apply;
    var start := Sent("", url, [], None);
    FirstOption(start, shown, verb, headers + data);
    var r := if shown then start.(verb := verb) else start;
    assert Apply(r, shown, headers + data) == Apply(r.(lines := [] + lines), shown, data);
    assert [] + lines == lines;
    DataOption(r.(lines := lines), shown, data);
  }

  lemma OptionsBehind(name: string, url: string, a: seq<string>, b: seq<string>, c: seq<string>)
    ensures
      var all := [name, url] + a + b + c;
      |all| >= 2 && all[0] == name && all[1] == url && all[2..] == a + (b + c)
  {
  }

  lemma FirstOption(start: Sent, shown: bool, verb: string, rest: seq<string>)
    ensures Apply(start, false, (if shown then ["-X", verb] else []) + rest)
      == Apply(if shown then start.(verb := verb) else start, shown, rest)
  {
    assert (["-X", verb] + rest)[2..] == rest && [] + rest == rest;
  }

  lemma DataOption(r: Sent, chosen: bool, data: seq<string>)
    requires data == [] || (|data| == 2 && data[0] == "--data-raw")
    ensures Apply(r, chosen, data) == Some((if data == [] then r else r.(data := Some(data[1])), chosen))
  {
    assert data != [] ==> data[2..] == [];
  }
}
