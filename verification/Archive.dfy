/** Cutting one capture's records out of the running proxy's file (cli/record_proxify.go:139-204), and
    comparing the result with what the live index showed. */
module Archive {
  import opened Bytes
  import opened Captures
  import opened TrafficLines

  datatype Extract = Extract(content: seq<Byte>, count: nat, skipped: nat)

  datatype Outcome = Extracted(extract: Extract) | BadOffset

  datatype Limits = Limits(startMs: int, endMs: int, clientIp: string)

  /** The record an archived line is kept for, if it is kept. */
  function Kept(line: seq<Byte>, limits: Limits, parse: Parser): Option<Transaction> {
    if TrimSpace(line) == [] then None
    else
      match parse(TrimSpace(line))
      case None => None
      case Some(t) =>
        if t.schemaVersion != SCHEMA_VERSION || t.timestampMillis < limits.startMs || t.timestampMillis > limits.endMs
          || (limits.clientIp != "" && !ClientAddressMatches(t.clientAddress, limits.clientIp))
        then None
        else Some(t)
  }

  function Take(e: Extract, line: seq<Byte>, limits: Limits, parse: Parser): Extract {
    if TrimSpace(line) == [] then e
    else if Kept(line, limits, parse) == None then e.(skipped := e.skipped + 1)
    else e.(content := e.content + TrimSpace(line) + [NEWLINE], count := e.count + 1)
  }

  function TakeAll(e: Extract, lines: seq<seq<Byte>>, limits: Limits, parse: Parser): Extract
    decreases |lines|
  {
    if lines == [] then e else TakeAll(Take(e, lines[0], limits, parse), lines[1..], limits, parse)
  }

  /** The lines ReadBytes delivers from p on: the complete ones, then what is left. */
  function Pieces(file: seq<Byte>, p: nat): seq<seq<Byte>>
    requires p <= |file|
  {
    CompleteLines(file, p) + [file[CommittedEnd(file, p)..]]
  }

  /** The bytes that the limited reader lets through end here. */
  function Upto(source: seq<Byte>, endOffset: nat): seq<Byte> {
    if endOffset <= |source| then source[..endOffset] else source
  }

  function Specified(source: seq<Byte>, startOffset: int, endOffset: int, limits: Limits, parse: Parser): Outcome {
    if startOffset < 0 || endOffset < startOffset then BadOffset
    else
      var file := Upto(source, endOffset);
      if startOffset > |file| then Extracted(Extract([], 0, 0))
      else Extracted(TakeAll(Extract([], 0, 0), Pieces(file, startOffset), limits, parse))
  }

  lemma PiecesStep(file: seq<Byte>, p: nat)
    requires p <= |file|
    ensures
      var k := NextNewline(file, p);
      Pieces(file, p) == if k == |file| then [file[p..]] else [file[p..k + 1]] + Pieces(file, k + 1)
  {
    var k := NextNewline(file, p);
    if k < |file| {
      FirstLine(file, p, k);
      hide CompleteLines, NextNewline, CommittedEnd;
      Concat3([file[p..k + 1]], CompleteLines(file, k + 1), [file[CommittedEnd(file, k + 1)..]]);
    }
  }

  lemma TakeCons(e: Extract, line: seq<Byte>, rest: seq<seq<Byte>>, limits: Limits, parse: Parser)
    ensures TakeAll(e, [line] + rest, limits, parse) == TakeAll(Take(e, line, limits, parse), rest, limits, parse)
  {
    assert ([line] + rest)[1..] == rest;
    hide Take;
  }

  lemma TakeOne(e: Extract, line: seq<Byte>, limits: Limits, parse: Parser)
    ensures TakeAll(e, [line], limits, parse) == Take(e, line, limits, parse)
  {
    hide Take;
  }

  method ExtractCapturedTransactions(source: seq<Byte>, startOffset: int, endOffset: int, limits: Limits, parse: Parser)
    returns (outcome: Outcome)
    ensures outcome == Specified(source, startOffset, endOffset, limits, parse)
  {
    hide TakeAll, Take, Pieces, NextNewline;
    if startOffset < 0 || endOffset < startOffset {
      return BadOffset;
    }
    var file := Upto(source, endOffset);
    if startOffset > |file| {
      return Extracted(Extract([], 0, 0));
    }
    var position: nat := startOffset;
    var result := Extract([], 0, 0);
    while true
      invariant startOffset <= position <= |file|
      invariant TakeAll(Extract([], 0, 0), Pieces(file, startOffset), limits, parse)
        == TakeAll(result, Pieces(file, position), limits, parse)
      decreases |file| - position
    {
      PiecesStep(file, position);
      var k := NextNewline(file, position);
      var line;
      if k < |file| {
        line := file[position..k + 1];
        TakeCons(result, line, Pieces(file, k + 1), limits, parse);
      } else {
        line := file[position..];
        TakeOne(result, line, limits, parse);
      }
      result := ExtractLine(result, line, limits, parse);
      if k == |file| {
        return Extracted(result);
      }
      position := k + 1;
    }
  }

  method ExtractLine(e: Extract, line: seq<Byte>, limits: Limits, parse: Parser) returns (e': Extract)
    ensures e' == Take(e, line, limits, parse)
  {
    hide TrimSpace, ClientAddressMatches;
    e' := e;
    var trimmed := TrimSpace(line);
    if trimmed != [] {
      var decoded := parse(trimmed);
      if decoded == None || decoded.value.schemaVersion != SCHEMA_VERSION {
        e' := e'.(skipped := e'.skipped + 1);
      } else if decoded.value.timestampMillis < limits.startMs || decoded.value.timestampMillis > limits.endMs
        || (limits.clientIp != "" && !ClientAddressMatches(decoded.value.clientAddress, limits.clientIp)) {
        e' := e'.(skipped := e'.skipped + 1);
      } else {
        e' := e'.(content := e'.content + trimmed + [NEWLINE], count := e'.count + 1);
      }
    }
  }

  // ----- what the archive shows, against what the live index showed -----

  /** The archive is indexed from its start with no further filter. */
  const ARCHIVE_OPTIONS := ScanOptions(0, 0, "")

  function Records(rows: seq<Row>): seq<Transaction> {
    if rows == [] then [] else Records(rows[..|rows| - 1]) + [rows[|rows| - 1].transaction]
  }

  function RecordsUntil(rows: seq<Row>, endMs: int): seq<Transaction> {
    if rows == [] then []
    else
      var front, t := RecordsUntil(rows[..|rows| - 1], endMs), rows[|rows| - 1].transaction;
      if t.timestampMillis <= endMs then front + [t] else front
  }

  /** The live index's record for one line, restricted to the capture's end time. */
  function LiveRecord(line: seq<Byte>, judge: Judge, endMs: int): seq<Transaction> {
    if judge(line).Indexed? && judge(line).transaction.timestampMillis <= endMs then [judge(line).transaction] else []
  }

  /** The archive's record for one line, as its index shows it. */
  function ArchivedRecord(line: seq<Byte>, limits: Limits, parse: Parser): seq<Transaction> {
    match Kept(line, limits, parse)
    case None => []
    case Some(t) => if |TrimSpace(line)| + 1 > MAX_LINE then [] else [t]
  }

  function LiveRecords(lines: seq<seq<Byte>>, judge: Judge, endMs: int): seq<Transaction> {
    if lines == [] then [] else LiveRecord(lines[0], judge, endMs) + LiveRecords(lines[1..], judge, endMs)
  }

  function ArchivedRecords(lines: seq<seq<Byte>>, limits: Limits, parse: Parser): seq<Transaction> {
    if lines == [] then [] else ArchivedRecord(lines[0], limits, parse) + ArchivedRecords(lines[1..], limits, parse)
  }

  lemma {:induction false} LiveScanRecords(s: Scan, lines: seq<seq<Byte>>, judge: Judge, endMs: int)
    ensures RecordsUntil(ScanLines(s, lines, judge).rows, endMs)
      == RecordsUntil(s.rows, endMs) + LiveRecords(lines, judge, endMs)
    decreases |lines|
  {
    if lines != [] {
      var s' := Step(s, lines[0], judge);
      LiveScanRecords(s', lines[1..], judge, endMs);
      assert RecordsUntil(s'.rows, endMs) == RecordsUntil(s.rows, endMs) + LiveRecord(lines[0], judge, endMs) by {
        assert s'.rows != s.rows ==> s'.rows[..|s'.rows| - 1] == s.rows;
      }
    }
  }

  lemma ArchivedLine(line: seq<Byte>)
    requires IsLine(line) || NEWLINE !in line
    ensures IsLine(TrimSpace(line) + [NEWLINE])
  {
    hide TrimSpace;
    if IsLine(line) {
      TrimmedLine(line);
    } else {
      TrimKeeps(line);
      var r := TrimSpace(line);
      NextNewlineUnique(r + [NEWLINE], 0, |r|);
    }
  }

  lemma LastLine(content: seq<Byte>, line: seq<Byte>)
    requires IsLine(line)
    ensures NextNewline(content + line, |content|) == |content| + |line| - 1
    ensures NextNewline(content + line, |content| + |line|) == |content| + |line|
    ensures (content + line)[|content|..|content| + |line|] == line
    ensures (content + line)[..|content|] == content[..|content|]
  {
    var all := content + line;
    NoneBefore(line, 0);
    NextNewlineUnique(all, |content|, |all| - 1);
    NextNewlineUnique(all, |all|, |all|);
  }

  /** Appending a whole line to a file of whole lines is one more step of its scan. */
  lemma RebuildAppendLine(content: seq<Byte>, line: seq<Byte>, judge: Judge)
    requires IsLine(line) && Rebuild(content, 0, judge).offset == |content|
    ensures Rebuild(content + line, 0, judge) == Step(Rebuild(content, 0, judge), line, judge)
  {
    LastLine(content, line);
    ResumeEqualsRebuild(content, content + line, 0, judge);
    ResumeOneLine(Rebuild(content, 0, judge), content, line, judge);
    hide *;
  }

  lemma ResumeOneLine(s: Scan, content: seq<Byte>, line: seq<Byte>, judge: Judge)
    requires IsLine(line) && s.offset == |content|
    ensures Resume(s, content + line, judge) == Step(s, line, judge)
  {
    LastLine(content, line);
    hide NextNewline, IsLine, Resume;
    var all := content + line;
    ResumeStep(s, all, |all| - 1, judge);
    ResumeStop(Step(s, line, judge), all, judge);
  }

  /** How the archive's index judges a kept line. */
  lemma KeptLineIsJudged(line: seq<Byte>, limits: Limits, parse: Parser)
    requires IgnoresOuterSpace(parse) && Kept(line, limits, parse).Some?
    ensures
      JudgeFor(ARCHIVE_OPTIONS, parse)(TrimSpace(line) + [NEWLINE]) ==
      if |TrimSpace(line)| + 1 > MAX_LINE then Oversized else Indexed(Kept(line, limits, parse).value)
  {
    var r := TrimSpace(line);
    TrimSpaceEdges(line);
    TrimSpaceNewline(r);
    hide TrimSpace, IgnoresOuterSpace;
    NewlineKeepsRecord(parse, r);
  }

  /** The archive as written, and what its index makes of it. */
  ghost predicate Shows(e: Extract, records: seq<Transaction>, overlong: nat, parse: Parser) {
    var s := Rebuild(e.content, 0, JudgeFor(ARCHIVE_OPTIONS, parse));
    && s.offset == |e.content| && s.lineNumber == e.count
    && Records(s.rows) == records && |s.rows| == |records| && s.skipped == overlong
    && e.count == |records| + overlong
  }

  /** Lines that were kept although they are too long for the index. */
  function Overlong(lines: seq<seq<Byte>>, limits: Limits, parse: Parser): nat {
    if lines == [] then 0
    else
      (if Kept(lines[0], limits, parse).Some? && |TrimSpace(lines[0])| + 1 > MAX_LINE then 1 else 0)
      + Overlong(lines[1..], limits, parse)
  }

  lemma TakeShows(e: Extract, records: seq<Transaction>, overlong: nat, line: seq<Byte>, limits: Limits, parse: Parser)
    requires IgnoresOuterSpace(parse) && Shows(e, records, overlong, parse)
    requires IsLine(line) || NEWLINE !in line
    ensures Shows(Take(e, line, limits, parse), records + ArchivedRecord(line, limits, parse),
                  overlong + Overlong([line], limits, parse), parse)
  {
    hide TrimSpace, IgnoresOuterSpace, Rebuild, IsLine;
    var judge := JudgeFor(ARCHIVE_OPTIONS, parse);
    if Kept(line, limits, parse).Some? {
      ArchivedLine(line);
      KeptLineIsJudged(line, limits, parse);
      hide Kept, Classify;
      var l := TrimSpace(line) + [NEWLINE];
      assert e.content + TrimSpace(line) + [NEWLINE] == e.content + l;
      var s := Rebuild(e.content, 0, judge);
      RebuildAppendLine(e.content, l, judge);
      var s' := Step(s, l, judge);
      assert s'.rows != s.rows ==> s'.rows[..|s'.rows| - 1] == s.rows;
    }
  }

  lemma {:induction false} TakeAllShows(
    e: Extract, records: seq<Transaction>, overlong: nat, lines: seq<seq<Byte>>, limits: Limits, parse: Parser)
    requires IgnoresOuterSpace(parse) && Shows(e, records, overlong, parse)
    requires forall line | line in lines :: IsLine(line) || NEWLINE !in line
    ensures Shows(TakeAll(e, lines, limits, parse), records + ArchivedRecords(lines, limits, parse),
                  overlong + Overlong(lines, limits, parse), parse)
    decreases |lines|
  {
    hide Shows, Take, IgnoresOuterSpace, ArchivedRecord, IsLine, TrimSpace, Kept;
    if lines == [] {
      assert records + ArchivedRecords(lines, limits, parse) == records;
    } else {
      var first := ArchivedRecord(lines[0], limits, parse);
      TakeShows(e, records, overlong, lines[0], limits, parse);
      TakeAllShows(Take(e, lines[0], limits, parse), records + first, overlong + Overlong([lines[0]], limits, parse),
                   lines[1..], limits, parse);
      assert (records + first) + ArchivedRecords(lines[1..], limits, parse)
          == records + (first + ArchivedRecords(lines[1..], limits, parse));
    }
  }

  lemma {:induction false} CompleteLinesAreLines(file: seq<Byte>, p: nat)
    requires p <= |file|
    ensures forall line | line in CompleteLines(file, p) :: IsLine(line)
    decreases |file| - p
  {
    var k := NextNewline(file, p);
    if k < |file| {
      CompleteLinesAreLines(file, k + 1);
      NoneBefore(file, p);
      NextNewlineUnique(file[p..k + 1], 0, k - p);
    }
  }

  lemma PiecesAreLines(file: seq<Byte>, p: nat)
    requires p <= |file|
    ensures forall line | line in Pieces(file, p) :: IsLine(line) || NEWLINE !in line
  {
    var n := CommittedEnd(file, p);
    CompleteLinesAreLines(file, p);
    CommittedBoundary(file, p);
    NoneBefore(file, n);
    hide CompleteLines, CommittedEnd, IsLine, NextNewline;
    assert NEWLINE !in file[n..];
  }

  lemma EmptyShows(parse: Parser)
    ensures Shows(Extract([], 0, 0), [], 0, parse)
  {
    hide JudgeFor;
    assert CompleteLines([], 0) == [];
  }

  lemma NothingFirst<T>(a: seq<T>)
    ensures [] + a == a
  {
  }

  /** Indexing the written archive gives the kept records in file order; its line count is `count`, and
      what it skips are exactly the kept lines that are too long for the index. */
  lemma ArchiveShows(source: seq<Byte>, startOffset: nat, endOffset: nat, limits: Limits, parse: Parser)
    requires IgnoresOuterSpace(parse) && startOffset <= endOffset && startOffset <= |source|
    ensures
      var pieces := Pieces(Upto(source, endOffset), startOffset);
      var outcome := Specified(source, startOffset, endOffset, limits, parse);
      outcome.Extracted? &&
      Shows(outcome.extract, ArchivedRecords(pieces, limits, parse), Overlong(pieces, limits, parse), parse)
  {
    hide Shows, Pieces, IgnoresOuterSpace, IsLine, TakeAll, ArchivedRecords, Overlong;
    var pieces := Pieces(Upto(source, endOffset), startOffset);
    PiecesAreLines(Upto(source, endOffset), startOffset);
    EmptyShows(parse);
    TakeAllShows(Extract([], 0, 0), [], 0, pieces, limits, parse);
    NothingFirst(ArchivedRecords(pieces, limits, parse));
  }

  // ----- when the two agree -----

  /** A line that the archive keeps and the live index never showed: one that has no newline yet, one
      that is too long, or one that only decodes after trimming (TrimSpace takes off more than JSON
      allows around a value). */
  predicate ArchiveOnly(line: seq<Byte>, complete: bool, limits: Limits, parse: Parser) {
    && ArchivedRecord(line, limits, parse) != []
    && (!complete || |line| > MAX_LINE || parse(line) == None)
  }

  function LiveJudge(startOffset: int, limits: Limits, parse: Parser): Judge {
    JudgeFor(ScanOptions(startOffset, limits.startMs, limits.clientIp), parse)
  }

  lemma TrimmedIsShorter(line: seq<Byte>)
    requires IsLine(line)
    ensures |TrimSpace(line)| < |line|
  {
    var body := line[..|line| - 1];
    assert line == body + [NEWLINE];
    TrimSpaceNewline(body);
    hide TrimSpace;
  }

  lemma LineAgrees(line: seq<Byte>, startOffset: int, limits: Limits, parse: Parser)
    requires IgnoresOuterSpace(parse) && IsLine(line) && limits.startMs > 0
    ensures
      var live := LiveRecord(line, LiveJudge(startOffset, limits, parse), limits.endMs);
      var archived := ArchivedRecord(line, limits, parse);
      if ArchiveOnly(line, true, limits, parse) then live == [] && |archived| == 1 else live == archived
  {
    hide TrimSpace, IgnoresOuterSpace, IsLine, ClientAddressMatches;
    TrimmedIsShorter(line);
    if parse(line).Some? {
      TrimKeepsRecord(parse, line);
    }
  }

  /** Per list of whole lines: never more live records than archived ones, equally many exactly when no
      line is kept by the archive only, and then the same ones. */
  lemma {:induction false} LinesAgree(lines: seq<seq<Byte>>, startOffset: int, limits: Limits, parse: Parser)
    requires IgnoresOuterSpace(parse) && limits.startMs > 0 && forall line | line in lines :: IsLine(line)
    ensures
      var live := LiveRecords(lines, LiveJudge(startOffset, limits, parse), limits.endMs);
      var archived := ArchivedRecords(lines, limits, parse);
      if exists line | line in lines :: ArchiveOnly(line, true, limits, parse)
      then |live| < |archived|
      else live == archived
    decreases |lines|
  {
    hide ArchiveOnly, LiveRecord, ArchivedRecord, IsLine, IgnoresOuterSpace, LiveJudge;
    if lines != [] {
      LineAgrees(lines[0], startOffset, limits, parse);
      LinesAgree(lines[1..], startOffset, limits, parse);
      assert forall line :: line in lines <==> line == lines[0] || line in lines[1..];
    }
  }

  lemma {:induction false} ArchivedAppend(lines: seq<seq<Byte>>, last: seq<Byte>, limits: Limits, parse: Parser)
    ensures ArchivedRecords(lines + [last], limits, parse)
      == ArchivedRecords(lines, limits, parse) + ArchivedRecord(last, limits, parse)
    decreases |lines|
  {
    hide ArchivedRecord;
    if lines == [] {
      assert lines + [last] == [last];
    } else {
      ArchivedAppend(lines[1..], last, limits, parse);
      assert (lines + [last])[1..] == lines[1..] + [last];
    }
  }

  /** For a capture with a positive start time: the archive's records equal, in order, those the live
      index shows for the bytes before the end offset and times up to the end, if and only if no piece
      of the file is kept by the archive only. */
  lemma ArchiveAgreesIff(source: seq<Byte>, startOffset: nat, endOffset: nat, limits: Limits, parse: Parser)
    requires IgnoresOuterSpace(parse) && startOffset <= endOffset && startOffset <= |source| && limits.startMs > 0
    ensures
      var file := Upto(source, endOffset);
      var archive := Specified(source, startOffset, endOffset, limits, parse).extract.content;
      var live := Rebuild(file, startOffset, LiveJudge(startOffset, limits, parse)).rows;
      var lines, rest := CompleteLines(file, startOffset), file[CommittedEnd(file, startOffset)..];
      Records(Rebuild(archive, 0, JudgeFor(ARCHIVE_OPTIONS, parse)).rows) == RecordsUntil(live, limits.endMs)
      <==> !ArchiveOnly(rest, false, limits, parse)
           && forall line | line in lines :: !ArchiveOnly(line, true, limits, parse)
  {
    var file := Upto(source, endOffset);
    var lines, rest := CompleteLines(file, startOffset), file[CommittedEnd(file, startOffset)..];
    hide *;
    ArchivedPieces(source, startOffset, endOffset, limits, parse);
    LiveLines(file, startOffset, LiveJudge(startOffset, limits, parse), limits.endMs);
    CompleteLinesAreLines(file, startOffset);
    LinesAgree(lines, startOffset, limits, parse);
    RestAgrees(rest, limits, parse);
  }

  lemma ArchivedPieces(source: seq<Byte>, startOffset: nat, endOffset: nat, limits: Limits, parse: Parser)
    requires IgnoresOuterSpace(parse) && startOffset <= endOffset && startOffset <= |source|
    ensures
      var file := Upto(source, endOffset);
      var archive := Specified(source, startOffset, endOffset, limits, parse).extract.content;
      var lines, rest := CompleteLines(file, startOffset), file[CommittedEnd(file, startOffset)..];
      Records(Rebuild(archive, 0, JudgeFor(ARCHIVE_OPTIONS, parse)).rows)
        == ArchivedRecords(lines, limits, parse) + ArchivedRecord(rest, limits, parse)
  {
    hide IgnoresOuterSpace, Rebuild, Specified, Records, ArchivedRecords, CompleteLines, CommittedEnd;
    var file := Upto(source, endOffset);
    ArchiveShows(source, startOffset, endOffset, limits, parse);
    ArchivedAppend(CompleteLines(file, startOffset), file[CommittedEnd(file, startOffset)..], limits, parse);
  }

  lemma LiveLines(file: seq<Byte>, startOffset: nat, judge: Judge, endMs: int)
    requires startOffset <= |file|
    ensures RecordsUntil(Rebuild(file, startOffset, judge).rows, endMs)
      == LiveRecords(CompleteLines(file, startOffset), judge, endMs)
  {
    hide ScanLines, LiveRecords, CompleteLines;
    LiveScanRecords(Scan(startOffset, 0, 0, []), CompleteLines(file, startOffset), judge, endMs);
  }

  lemma RestAgrees(rest: seq<Byte>, limits: Limits, parse: Parser)
    ensures ArchiveOnly(rest, false, limits, parse) <==> ArchivedRecord(rest, limits, parse) != []
  {
    hide ArchivedRecord;
  }

  /** Line count, record count and skipped count of the archive agree exactly when no kept line is too
      long for the index. */
  lemma ArchiveCountIff(source: seq<Byte>, startOffset: nat, endOffset: nat, limits: Limits, parse: Parser)
    requires IgnoresOuterSpace(parse) && startOffset <= endOffset && startOffset <= |source|
    ensures
      var extract := Specified(source, startOffset, endOffset, limits, parse).extract;
      var s := Rebuild(extract.content, 0, JudgeFor(ARCHIVE_OPTIONS, parse));
      (|s.rows| == extract.count && s.skipped == 0)
      <==> Overlong(Pieces(Upto(source, endOffset), startOffset), limits, parse) == 0
  {
    hide IgnoresOuterSpace, Rebuild, Pieces, Overlong;
    ArchiveShows(source, startOffset, endOffset, limits, parse);
  }

  // ----- the two counts -----

  /** Pieces that hold something else than white space. */
  function Filled(lines: seq<seq<Byte>>): nat {
    if lines == [] then 0 else (if TrimSpace(lines[0]) != [] then 1 else 0) + Filled(lines[1..])
  }

  function KeptPieces(lines: seq<seq<Byte>>, limits: Limits, parse: Parser): nat {
    if lines == [] then 0
    else (if Kept(lines[0], limits, parse).Some? then 1 else 0) + KeptPieces(lines[1..], limits, parse)
  }

  lemma TakeCounts(e: Extract, line: seq<Byte>, limits: Limits, parse: Parser)
    ensures
      var e' := Take(e, line, limits, parse);
      && e'.count == e.count + (if Kept(line, limits, parse).Some? then 1 else 0)
      && e'.count + e'.skipped == e.count + e.skipped + (if TrimSpace(line) != [] then 1 else 0)
  {
    hide TrimSpace, ClientAddressMatches;
  }

  /** `count` is the number of pieces that are kept, and `skipped` that of all others that are not blank. */
  lemma {:induction false} TakeAllCounts(e: Extract, lines: seq<seq<Byte>>, limits: Limits, parse: Parser)
    ensures
      var all := TakeAll(e, lines, limits, parse);
      && all.count == e.count + KeptPieces(lines, limits, parse)
      && all.count + all.skipped == e.count + e.skipped + Filled(lines)
    decreases |lines|
  {
    hide Take, Kept, TrimSpace;
    if lines != [] {
      TakeCounts(e, lines[0], limits, parse);
      TakeAllCounts(Take(e, lines[0], limits, parse), lines[1..], limits, parse);
    }
  }

  // ----- a line that only the archive keeps -----

  const VERTICAL_TAB: Byte := 11

  /** JSON allows no vertical tab before a value (section 2 of RFC 8259). */
  ghost predicate RejectsVerticalTab(parse: Parser) {
    forall text: seq<Byte> | text != [] && text[0] == VERTICAL_TAB :: parse(text) == None
  }

  lemma TabLeads(text: seq<Byte>)
    ensures TrimLeft([VERTICAL_TAB] + text) == TrimLeft(text)
  {
    hide IsWideSpace;
    var tabbed := [VERTICAL_TAB] + text;
    assert tabbed[0] == VERTICAL_TAB && tabbed[1..] == text;
    hide TrimRight;
  }

  lemma TabTrims(text: seq<Byte>)
    requires TrimSpace(text) == text
    ensures TrimSpace([VERTICAL_TAB] + text + [NEWLINE]) == text
  {
    hide TrimLeft, TrimRight;
    TabLeads(text);
    TrimSpaceNewline([VERTICAL_TAB] + text);
  }

  /** What a line is kept for depends on what is left of it after trimming. */
  lemma ArchivedAlike(line: seq<Byte>, text: seq<Byte>, limits: Limits, parse: Parser)
    requires TrimSpace(line) == text == TrimSpace(text) && |text| < MAX_LINE && Kept(text, limits, parse).Some?
    ensures ArchivedRecord(line, limits, parse) != []
  {
    hide TrimSpace;
  }

  lemma TabbedLine(text: seq<Byte>)
    requires NEWLINE !in text
    ensures IsLine([VERTICAL_TAB] + text + [NEWLINE])
  {
    var line := [VERTICAL_TAB] + text + [NEWLINE];
    NextNewlineUnique(line, 0, |line| - 1);
  }

  /** A vertical tab before any record that is kept: TrimSpace takes it off, JSON does not allow it. The
      archive has the record and the live index does not. */
  lemma VerticalTabIsArchivedOnly(text: seq<Byte>, limits: Limits, parse: Parser)
    requires RejectsVerticalTab(parse)
    requires TrimSpace(text) == text && NEWLINE !in text && |text| < MAX_LINE && Kept(text, limits, parse).Some?
    ensures
      var line := [VERTICAL_TAB] + text + [NEWLINE];
      IsLine(line) && ArchiveOnly(line, true, limits, parse)
  {
    hide TrimSpace, Kept, ArchivedRecord, IsLine;
    var line := [VERTICAL_TAB] + text + [NEWLINE];
    TabTrims(text);
    TabbedLine(text);
    ArchivedAlike(line, text, limits, parse);
    assert line[0] == VERTICAL_TAB;
  }
}
