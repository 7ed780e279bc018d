/** The HAR file made from an archive when a capture stops (cli/record_proxify.go:211-279). */
module HarExport {
  import opened Bytes
  import opened Captures
  import opened TrafficLines
  import opened Archive

  /** A record as a HAR entry. */
  type Renderer = Transaction -> seq<Byte>

  const COMMA: Byte := 44
  const CLOSING: seq<Byte> := [93, 125, 125]

  /** The entries with commas between them. */
  function Listed(entries: seq<Transaction>, render: Renderer): seq<Byte> {
    if entries == [] then []
    else
      var front := entries[..|entries| - 1];
      Listed(front, render) + (if front == [] then [] else [COMMA]) + render(entries[|entries| - 1])
  }

  /** The records of all lines that are not blank; None when one of them does not decode. */
  function Decoded(lines: seq<seq<Byte>>, parse: Parser): Option<seq<Transaction>> {
    if lines == [] then Some([])
    else if TrimSpace(lines[0]) == [] then Decoded(lines[1..], parse)
    else if parse(lines[0]) == None then None
    else Behind([parse(lines[0]).value], Decoded(lines[1..], parse))
  }

  function Behind(done: seq<Transaction>, rest: Option<seq<Transaction>>): Option<seq<Transaction>> {
    if rest == None then None else Some(done + rest.value)
  }

  lemma BehindTwice(a: seq<Transaction>, b: seq<Transaction>, rest: Option<seq<Transaction>>)
    ensures Behind(a, Behind(b, rest)) == Behind(a + b, rest)
    ensures Behind([], rest) == rest
  {
    assert rest.Some? ==> a + (b + rest.value) == (a + b) + rest.value && [] + rest.value == rest.value;
  }

  lemma DecodedCons(line: seq<Byte>, rest: seq<seq<Byte>>, parse: Parser)
    ensures Decoded([line] + rest, parse) ==
      if TrimSpace(line) == [] then Decoded(rest, parse)
      else if parse(line) == None then None
      else Behind([parse(line).value], Decoded(rest, parse))
  {
    hide TrimSpace;
    assert ([line] + rest)[1..] == rest;
  }

  lemma ListedMore(entries: seq<Transaction>, t: Transaction, render: Renderer)
    ensures Listed(entries + [t], render)
      == Listed(entries, render) + (if entries == [] then [] else [COMMA]) + render(t)
  {
    assert (entries + [t])[..|entries|] == entries;
  }

  /** Adds the entry of one line, unless the line is blank; None when it does not decode. */
  method AppendEntry(
    out: seq<Byte>, first: bool, line: seq<Byte>, parse: Parser, render: Renderer, ghost head: seq<Byte>,
    ghost done: seq<Transaction>)
    returns (r: Option<seq<Byte>>, first': bool, ghost done': seq<Transaction>)
    requires out == head + Listed(done, render) && (first <==> done == [])
    ensures r == None <==> TrimSpace(line) != [] && parse(line) == None
    ensures r.Some? ==> done' == done + (if TrimSpace(line) == [] then [] else Record(parse, line))
    ensures r.Some? ==> r.value == head + Listed(done', render) && (first' <==> done' == [])
  {
    hide Listed, TrimSpace;
    r, first', done' := Some(out), first, done;
    assert done + [] == done;
    if TrimSpace(line) != [] {
      var decoded := parse(line);
      if decoded == None {
        return None, first', done';
      }
      ListedMore(done, decoded.value, render);
      var comma := if first then [] else [COMMA];
      r := Some(out + comma + render(decoded.value));
      first', done' := false, done + [decoded.value];
      assert out + comma + render(decoded.value) == head + (Listed(done, render) + comma + render(decoded.value));
    }
  }

  function Record(parse: Parser, line: seq<Byte>): seq<Transaction> {
    if parse(line).Some? then [parse(line).value] else []
  }

  /** The file is written only when every line decodes; it then lists the records in file order. */
  method ExportCaptureHAR(file: seq<Byte>, head: seq<Byte>, parse: Parser, render: Renderer)
    returns (r: Option<seq<Byte>>)
    ensures r ==
      match Decoded(Pieces(file, 0), parse)
      case None => None
      case Some(entries) => Some(head + Listed(entries, render) + CLOSING)
  {
    hide Decoded, Behind, Listed, Pieces, NextNewline, TrimSpace;
    var position: nat := 0;
    var first := true;
    var out := head;
    ghost var done: seq<Transaction> := [];
    assert head + Listed([], render) == head by { NothingListed(render); }
    BehindTwice([], [], Decoded(Pieces(file, 0), parse));
    while true
      invariant position <= |file|
      invariant out == head + Listed(done, render)
      invariant first <==> done == []
      invariant Decoded(Pieces(file, 0), parse) == Behind(done, Decoded(Pieces(file, position), parse))
      decreases |file| - position
    {
      PiecesStep(file, position);
      var k := NextNewline(file, position);
      var line := if k < |file| then file[position..k + 1] else file[position..];
      ghost var rest := if k < |file| then Pieces(file, k + 1) else [];
      OneLine(done, line, rest, parse);
      assert [line] + [] == [line];
      var more;
      more, first, done := AppendEntry(out, first, line, parse, render, head, done);
      if more == None {
        return None;
      }
      out := more.value;
      if k == |file| {
        EndsHere(done, parse);
        return Some(out + CLOSING);
      }
      position := k + 1;
    }
  }

  lemma OneLine(done: seq<Transaction>, line: seq<Byte>, rest: seq<seq<Byte>>, parse: Parser)
    ensures
      Behind(done, Decoded([line] + rest, parse)) ==
      if TrimSpace(line) != [] && parse(line) == None then None
      else Behind(done + (if TrimSpace(line) == [] then [] else Record(parse, line)), Decoded(rest, parse))
  {
    hide TrimSpace, Decoded;
    DecodedCons(line, rest, parse);
    assert done + [] == done;
    if parse(line).Some? {
      BehindTwice(done, [parse(line).value], Decoded(rest, parse));
    }
  }

  lemma NothingListed(render: Renderer)
    ensures Listed([], render) == []
  {
  }

  lemma EndsHere(done: seq<Transaction>, parse: Parser)
    ensures Behind(done, Decoded([], parse)) == Some(done)
  {
    assert done + [] == done;
  }

  /** A file is exported if and only if each of its lines is blank or decodes; each line that is not blank
      then has its entry. */
  lemma {:induction false} DecodedIff(lines: seq<seq<Byte>>, parse: Parser)
    ensures Decoded(lines, parse).Some? <==>
      forall line | line in lines :: TrimSpace(line) == [] || parse(line).Some?
    ensures Decoded(lines, parse).Some? ==> |Decoded(lines, parse).value| == Filled(lines)
    decreases |lines|
  {
    hide TrimSpace;
    if lines != [] {
      DecodedIff(lines[1..], parse);
      assert lines == [lines[0]] + lines[1..];
    }
  }

  // ----- reading it back -----

  /** A JSON reader for one value: the text of the value that comes first, and what follows it. */
  type ValueReader = seq<Byte> -> Option<(seq<Byte>, seq<Byte>)>

  /** What is used of JSON (section 2 of RFC 8259): an object begins with a brace, and a comma or a closing
      bracket behind it is not part of it. */
  ghost predicate ReadsObjects(read: ValueReader, render: Renderer) {
    && (forall t :: render(t) != [] && render(t)[0] == '{' as int)
    && forall t, rest | EndsValue(rest) :: ReadsAs(read, render(t), rest)
  }

  predicate EndsValue(rest: seq<Byte>) {
    rest != [] && (rest[0] == ',' as int || rest[0] == ']' as int)
  }

  predicate ReadsAs(read: ValueReader, value: seq<Byte>, rest: seq<Byte>) {
    read(value + rest) == Some((value, rest))
  }

  /** The values of an array, from behind its opening bracket, and what follows its closing one. */
  function ArrayRead(text: seq<Byte>, read: ValueReader): Option<(seq<seq<Byte>>, seq<Byte>)> {
    if text != [] && text[0] == ']' as int then Some(([], text[1..])) else ValuesRead(text, read)
  }

  function ValuesRead(text: seq<Byte>, read: ValueReader): Option<(seq<seq<Byte>>, seq<Byte>)>
    decreases |text|
  {
    match read(text)
    case None => None
    case Some((value, rest)) =>
      if rest == [] || |rest| > |text| then None
      else if rest[0] == ']' as int then Some(([value], rest[1..]))
      else if rest[0] != ',' as int then None
      else
        match ValuesRead(rest[1..], read)
        case None => None
        case Some((values, after)) => Some(([value] + values, after))
  }

  function Rendered(entries: seq<Transaction>, render: Renderer): seq<seq<Byte>> {
    if entries == [] then [] else [render(entries[0])] + Rendered(entries[1..], render)
  }

  lemma {:induction false} ListedFirst(t: Transaction, rest: seq<Transaction>, render: Renderer)
    ensures Listed([t] + rest, render) == render(t) + if rest == [] then [] else [COMMA] + Listed(rest, render)
    decreases |rest|
  {
    hide Listed;
    if rest == [] {
      NothingListed(render);
      ListedMore([], t, render);
      assert [t] + rest == [] + [t] && [] + [] + render(t) == render(t) + [];
    } else {
      var front, last := rest[..|rest| - 1], rest[|rest| - 1];
      ListedFirst(t, front, render);
      ListedMore([t] + front, last, render);
      ListedMore(front, last, render);
      assert [t] + rest == [t] + front + [last] && rest == front + [last];
      Regrouped(render(t), [COMMA], Listed(front, render), render(last));
      if front == [] {
        NothingListed(render);
        assert [] + [] + render(last) == render(last);
      }
    }
  }

  lemma Regrouped(a: seq<Byte>, comma: seq<Byte>, b: seq<Byte>, c: seq<Byte>)
    ensures a + (comma + b) + comma + c == a + (comma + (b + comma + c))
    ensures a + [] + comma + c == a + (comma + c)
  {
  }

  lemma {:induction false} ListedReads(entries: seq<Transaction>, render: Renderer, read: ValueReader, rest: seq<Byte>)
    requires ReadsObjects(read, render) && entries != [] && rest != [] && rest[0] == ']' as int
    ensures ValuesRead(Listed(entries, render) + rest, read) == Some((Rendered(entries, render), rest[1..]))
    ensures (Listed(entries, render) + rest)[0] == '{' as int
    decreases |entries|
  {
    var t, others := entries[0], entries[1..];
    assert entries == [t] + others;
    ListedFirst(t, others, render);
    hide Listed;
    if others == [] {
      assert render(t) + [] + rest == render(t) + rest;
      ObjectReads(t, rest, render, read);
      assert Rendered(others, render) == [] && Rendered(entries, render) == [render(t)];
    } else {
      var tail := Listed(others, render) + rest;
      assert render(t) + ([COMMA] + Listed(others, render)) + rest == render(t) + ([COMMA] + tail);
      ListedReads(others, render, read, rest);
      ObjectReads(t, [COMMA] + tail, render, read);
      assert ([COMMA] + tail)[1..] == tail;
    }
  }

  lemma ObjectReads(t: Transaction, rest: seq<Byte>, render: Renderer, read: ValueReader)
    requires ReadsObjects(read, render) && EndsValue(rest)
    ensures read(render(t) + rest) == Some((render(t), rest))
    ensures render(t) != [] && (render(t) + rest)[0] == '{' as int
  {
    assert ReadsAs(read, render(t), rest);
  }

  /** A JSON reader finds exactly the entries of the listed records in the written file, in order, and two
      closing braces behind them. */
  lemma WrittenReadsBack(head: seq<Byte>, entries: seq<Transaction>, render: Renderer, read: ValueReader)
    requires ReadsObjects(read, render)
    ensures
      var written := head + Listed(entries, render) + CLOSING;
      ArrayRead(written[|head|..], read) == Some((Rendered(entries, render), ['}' as int, '}' as int]))
  {
    var written := head + Listed(entries, render) + CLOSING;
    assert written[|head|..] == Listed(entries, render) + CLOSING;
    assert CLOSING[1..] == ['}' as int, '}' as int];
    if entries == [] {
      NothingListed(render);
      assert [] + CLOSING == CLOSING;
    } else {
      ListedReads(entries, render, read, CLOSING);
    }
    hide ValuesRead, Listed;
  }

  // ----- what it lists for an archive -----

  /** The records an archive keeps, in file order. */
  function KeptRecords(lines: seq<seq<Byte>>, limits: Limits, parse: Parser): seq<Transaction> {
    if lines == [] then []
    else
      (match Kept(lines[0], limits, parse) case None => [] case Some(t) => [t])
      + KeptRecords(lines[1..], limits, parse)
  }

  ghost predicate Exports(e: Extract, records: seq<Transaction>, parse: Parser) {
    && CommittedEnd(e.content, 0) == |e.content|
    && Decoded(CompleteLines(e.content, 0), parse) == Some(records)
    && e.count == |records|
  }

  lemma {:induction false} DecodedAppend(lines: seq<seq<Byte>>, line: seq<Byte>, parse: Parser)
    requires Decoded(lines, parse).Some?
    ensures Decoded(lines + [line], parse) ==
      if TrimSpace(line) == [] then Decoded(lines, parse)
      else if parse(line) == None then None
      else Some(Decoded(lines, parse).value + [parse(line).value])
    decreases |lines|
  {
    hide TrimSpace;
    if lines == [] {
      assert lines + [line] == [line] + [];
      DecodedCons(line, [], parse);
      if parse(line).Some? {
        assert [] + [parse(line).value] == [parse(line).value] + [];
      }
    } else {
      hide Decoded;
      assert lines == [lines[0]] + lines[1..];
      DecodedCons(lines[0], lines[1..], parse);
      DecodedAppend(lines[1..], line, parse);
      assert lines + [line] == [lines[0]] + (lines[1..] + [line]);
      DecodedCons(lines[0], lines[1..] + [line], parse);
      if TrimSpace(lines[0]) != [] && TrimSpace(line) != [] && parse(line).Some? {
        BehindTwice([parse(lines[0]).value], Decoded(lines[1..], parse).value, Some([parse(line).value]));
      }
    }
  }

  lemma AppendedLine(content: seq<Byte>, line: seq<Byte>)
    requires IsLine(line) && CommittedEnd(content, 0) == |content|
    ensures CommittedEnd(content + line, 0) == |content + line|
    ensures CompleteLines(content + line, 0) == CompleteLines(content, 0) + [line]
  {
    hide NextNewline, IsLine, ScanLines;
    var all := content + line;
    var judge: Judge := l => Blank;
    ScanOffset(Scan(0, 0, 0, []), content, judge);
    ScanOffset(Scan(0, 0, 0, []), all, judge);
    RebuildAppendLine(content, line, judge);
    LastLine(content, line);
    hide CommittedEnd;
    CommittedPrefix(content, all, 0, |content|);
  }

  lemma TakeExports(e: Extract, records: seq<Transaction>, line: seq<Byte>, limits: Limits, parse: Parser)
    requires IgnoresOuterSpace(parse) && Exports(e, records, parse) && (IsLine(line) || NEWLINE !in line)
    ensures Exports(Take(e, line, limits, parse), records + KeptRecords([line], limits, parse), parse)
  {
    hide TrimSpace, IsLine, CommittedEnd, CompleteLines, Decoded, IgnoresOuterSpace, ClientAddressMatches;
    if Kept(line, limits, parse).Some? {
      ArchivedLine(line);
      var l := TrimSpace(line) + [NEWLINE];
      assert e.content + TrimSpace(line) + [NEWLINE] == e.content + l;
      AppendedLine(e.content, l);
      DecodedAppend(CompleteLines(e.content, 0), l, parse);
      TrimSpaceEdges(line);
      TrimSpaceNewline(TrimSpace(line));
      NewlineKeepsRecord(parse, TrimSpace(line));
    }
    KeptOne(line, limits, parse);
    hide Kept;
    assert records + [] == records;
  }

  lemma KeptOne(line: seq<Byte>, limits: Limits, parse: Parser)
    ensures KeptRecords([line], limits, parse) == match Kept(line, limits, parse) case None => [] case Some(t) => [t]
  {
    hide Kept;
  }

  lemma {:induction false} TakeAllExports(
    e: Extract, records: seq<Transaction>, lines: seq<seq<Byte>>, limits: Limits, parse: Parser)
    requires IgnoresOuterSpace(parse) && Exports(e, records, parse)
    requires forall line | line in lines :: IsLine(line) || NEWLINE !in line
    ensures Exports(TakeAll(e, lines, limits, parse), records + KeptRecords(lines, limits, parse), parse)
    decreases |lines|
  {
    hide Exports, Take, Kept, IsLine, IgnoresOuterSpace;
    if lines == [] {
      assert records + [] == records;
    } else {
      TakeExports(e, records, lines[0], limits, parse);
      var first := KeptRecords([lines[0]], limits, parse);
      TakeAllExports(Take(e, lines[0], limits, parse), records + first, lines[1..], limits, parse);
      assert first + KeptRecords(lines[1..], limits, parse) == KeptRecords(lines, limits, parse);
      assert (records + first) + KeptRecords(lines[1..], limits, parse)
        == records + (first + KeptRecords(lines[1..], limits, parse));
    }
  }

  /** Exporting a fresh archive never fails, and the HAR file has exactly its `count` records, in order. */
  lemma ArchiveExports(source: seq<Byte>, startOffset: nat, endOffset: nat, limits: Limits, parse: Parser)
    requires IgnoresOuterSpace(parse) && startOffset <= endOffset && startOffset <= |source|
    ensures
      var kept := KeptRecords(Pieces(Upto(source, endOffset), startOffset), limits, parse);
      var extract := Specified(source, startOffset, endOffset, limits, parse).extract;
      Decoded(Pieces(extract.content, 0), parse) == Some(kept) && |kept| == extract.count
  {
    hide IsLine, IgnoresOuterSpace, CommittedEnd, CompleteLines, Decoded, TakeAll, TrimSpace;
    var pieces := Pieces(Upto(source, endOffset), startOffset);
    PiecesAreLines(Upto(source, endOffset), startOffset);
    NothingExported(parse);
    TakeAllExports(Extract([], 0, 0), [], pieces, limits, parse);
    assert [] + KeptRecords(pieces, limits, parse) == KeptRecords(pieces, limits, parse);
    var content := TakeAll(Extract([], 0, 0), pieces, limits, parse).content;
    assert content[|content|..] == [];
    DecodedAppend(CompleteLines(content, 0), [], parse);
    assert TrimSpace([]) == [] by { NothingTrimmed(); }
  }

  lemma NothingTrimmed()
    ensures TrimSpace([]) == []
  {
  }

  lemma NothingExported(parse: Parser)
    ensures Exports(Extract([], 0, 0), [], parse)
  {
  }
}
