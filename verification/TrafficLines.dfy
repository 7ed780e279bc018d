/** Reading a growing JSONL file line by line (cli/web_index.go, cli/web_incremental.go). */
module TrafficLines {
  import opened Bytes
  import opened Captures

  const MAX_LINE: nat := 33_554_432 // 32 << 20

  // ----- lines of a file -----

  /** The newline-terminated lines of `file` from position p on; an unfinished last line is not one. */
  function CompleteLines(file: seq<Byte>, p: nat): seq<seq<Byte>>
    requires p <= |file|
    decreases |file| - p
  {
    var k := NextNewline(file, p);
    if k == |file| then [] else [file[p..k + 1]] + CompleteLines(file, k + 1)
  }

  /** Where the last of those lines ends. */
  function CommittedEnd(file: seq<Byte>, p: nat): (n: nat)
    requires p <= |file|
    ensures p <= n <= |file|
    decreases |file| - p
  {
    var k := NextNewline(file, p);
    if k == |file| then p else CommittedEnd(file, k + 1)
  }

  /** The committed part ends in a newline, and no newline follows it. */
  lemma {:induction false} CommittedBoundary(file: seq<Byte>, p: nat)
    requires p <= |file|
    ensures CommittedEnd(file, p) > p ==> file[CommittedEnd(file, p) - 1] == NEWLINE
    ensures NextNewline(file, CommittedEnd(file, p)) == |file|
    decreases |file| - p
  {
    var k := NextNewline(file, p);
    if k < |file| {
      CommittedBoundary(file, k + 1);
    }
  }

  lemma SameFirstLine(file: seq<Byte>, file': seq<Byte>, p: nat, n: nat)
    requires p <= |file| && NextNewline(file, p) < n <= |file| && n <= |file'| && file'[..n] == file[..n]
    ensures NextNewline(file', p) == NextNewline(file, p)
    ensures file'[p..NextNewline(file, p) + 1] == file[p..NextNewline(file, p) + 1]
  {
    forall i | 0 <= i < n ensures file'[i] == file[i] {
      assert file'[i] == file'[..n][i] == file[..n][i];
    }
    NoneBefore(file, p);
    NextNewlineUnique(file', p, NextNewline(file, p));
  }

  /** The two recursions above, unfolded once where there is a newline. */
  lemma FirstLine(file: seq<Byte>, p: nat, k: nat)
    requires p <= |file| && k == NextNewline(file, p) < |file|
    ensures CompleteLines(file, p) == [file[p..k + 1]] + CompleteLines(file, k + 1)
    ensures CommittedEnd(file, p) == CommittedEnd(file, k + 1)
  {
    hide NextNewline;
  }

  lemma Concat3(a: seq<seq<Byte>>, b: seq<seq<Byte>>, c: seq<seq<Byte>>)
    ensures a + (b + c) == (a + b) + c
  {
  }

  lemma FirstOfBoth(file: seq<Byte>, file': seq<Byte>, p: nat, k: nat, n: nat)
    requires p <= |file| && k == NextNewline(file, p) < |file| && n == CommittedEnd(file, p) <= |file'|
    requires file'[..n] == file[..n]
    ensures k < n == CommittedEnd(file, k + 1)
    ensures CompleteLines(file, p) == [file[p..k + 1]] + CompleteLines(file, k + 1)
    ensures CompleteLines(file', p) == [file[p..k + 1]] + CompleteLines(file', k + 1)
  {
    hide *;
    FirstLine(file, p, k);
    SameFirstLine(file, file', p, n);
    FirstLine(file', p, k);
  }

  /** Only the committed bytes matter: any text that starts with them has the same first lines. */
  lemma {:induction false} CommittedPrefix(file: seq<Byte>, file': seq<Byte>, p: nat, n: nat)
    requires p <= |file| && n == CommittedEnd(file, p) <= |file'|
    requires file'[..n] == file[..n]
    ensures CompleteLines(file', p) == CompleteLines(file, p) + CompleteLines(file', n)
    decreases |file| - p
  {
    var k := NextNewline(file, p);
    if k < |file| {
      hide *;
      FirstOfBoth(file, file', p, k, n);
      CommittedPrefix(file, file', k + 1, n);
      Concat3([file[p..k + 1]], CompleteLines(file, k + 1), CompleteLines(file', n));
    }
  }

  // ----- the scan as a fold over lines -----

  datatype ScanOptions = ScanOptions(startOffset: int, startMs: int, clientIp: string)

  datatype Row = Row(lineNumber: nat, offset: nat, length: nat, transaction: Transaction)

  datatype Scan = Scan(offset: nat, lineNumber: nat, skipped: nat, rows: seq<Row>)

  datatype Verdict = Oversized | Blank | Corrupt | FilteredOut | Indexed(transaction: Transaction)

  predicate Wanted(t: Transaction, options: ScanOptions) {
    && (options.startMs == 0 || t.timestampMillis >= options.startMs)
    && (options.clientIp == "" || ClientAddressMatches(t.clientAddress, options.clientIp))
  }

  function Classify(line: seq<Byte>, options: ScanOptions, parse: Parser): Verdict {
    if |line| > MAX_LINE then Oversized
    else if TrimSpace(line) == [] then Blank
    else
      match parse(line)
      case None => Corrupt
      case Some(t) =>
        if t.schemaVersion != SCHEMA_VERSION then Corrupt
        else if Wanted(t, options) then Indexed(t)
        else FilteredOut
  }

  /** How one scan judges each line; the folds below are the same for every way of judging. */
  type Judge = seq<Byte> -> Verdict

  function JudgeFor(options: ScanOptions, parse: Parser): Judge {
    line => Classify(line, options, parse)
  }

  function Step(s: Scan, line: seq<Byte>, judge: Judge): Scan {
    var v := judge(line);
    Scan(
      s.offset + |line|,
      s.lineNumber + 1,
      if v.Oversized? || v.Corrupt? then s.skipped + 1 else s.skipped,
      if v.Indexed? then s.rows + [Row(s.lineNumber + 1, s.offset, |line|, v.transaction)] else s.rows)
  }

  function ScanLines(s: Scan, lines: seq<seq<Byte>>, judge: Judge): Scan
    decreases |lines|
  {
    if lines == [] then s else ScanLines(Step(s, lines[0], judge), lines[1..], judge)
  }

  /** One pass over the whole file: what the index has to agree with at all times. */
  function Rebuild(file: seq<Byte>, start: nat, judge: Judge): Scan
    requires start <= |file|
  {
    ScanLines(Scan(start, 0, 0, []), CompleteLines(file, start), judge)
  }

  /** Going on from a committed scan over another text of the file. */
  function Resume(s: Scan, file: seq<Byte>, judge: Judge): Scan
    requires s.offset <= |file|
  {
    ScanLines(s, CompleteLines(file, s.offset), judge)
  }

  lemma {:induction false} ScanLinesAppend(s: Scan, a: seq<seq<Byte>>, b: seq<seq<Byte>>, judge: Judge)
    ensures ScanLines(s, a + b, judge) == ScanLines(ScanLines(s, a, judge), b, judge)
    decreases |a|
  {
    if a == [] {
      assert a + b == b;
    } else {
      assert (a + b)[0] == a[0] && (a + b)[1..] == a[1..] + b;
      ScanLinesAppend(Step(s, a[0], judge), a[1..], b, judge);
    }
  }

  lemma ScanCons(s: Scan, line: seq<Byte>, rest: seq<seq<Byte>>, judge: Judge)
    ensures ScanLines(s, [line] + rest, judge) == ScanLines(Step(s, line, judge), rest, judge)
  {
    assert ([line] + rest)[1..] == rest;
  }

  /** One turn of the scanning loop. */
  lemma ResumeStep(s: Scan, file: seq<Byte>, k: nat, judge: Judge)
    requires s.offset <= |file| && k == NextNewline(file, s.offset) < |file|
    ensures Resume(s, file, judge) == Resume(Step(s, file[s.offset..k + 1], judge), file, judge)
  {
    hide NextNewline, CommittedEnd, CompleteLines, ScanLines;
    FirstLine(file, s.offset, k);
    ScanCons(s, file[s.offset..k + 1], CompleteLines(file, k + 1), judge);
  }

  /** Its end. */
  lemma ResumeStop(s: Scan, file: seq<Byte>, judge: Judge)
    requires s.offset <= |file| && NextNewline(file, s.offset) == |file|
    ensures Resume(s, file, judge) == s
  {
    hide NextNewline, CommittedEnd;
  }

  lemma {:induction false} ScanOffset(s: Scan, file: seq<Byte>, judge: Judge)
    requires s.offset <= |file|
    ensures Resume(s, file, judge).offset == CommittedEnd(file, s.offset)
    decreases |file| - s.offset
  {
    var k := NextNewline(file, s.offset);
    if k < |file| {
      ScanOffset(Step(s, file[s.offset..k + 1], judge), file, judge);
    }
  }

  /** A rebuild of any text that keeps the committed bytes is the old scan resumed over it: appends cut
      at any byte, including inside a line, leave the index equal to a full rebuild. */
  lemma ResumeEqualsRebuild(file: seq<Byte>, file': seq<Byte>, start: nat, judge: Judge)
    requires start <= |file|
    requires
      var n := Rebuild(file, start, judge).offset;
      n <= |file'| && n <= |file| && file'[..n] == file[..n]
    ensures start <= Rebuild(file, start, judge).offset
    ensures Resume(Rebuild(file, start, judge), file', judge) == Rebuild(file', start, judge)
  {
    var s0 := Scan(start, 0, 0, []);
    ScanOffset(s0, file, judge);
    var n := CommittedEnd(file, start);
    CommittedPrefix(file, file', start, n);
    ScanLinesAppend(s0, CompleteLines(file, start), CompleteLines(file', n), judge);
  }

  lemma RebuildOffset(file: seq<Byte>, start: nat, judge: Judge)
    requires start <= |file|
    ensures
      var n := Rebuild(file, start, judge).offset;
      && start <= n <= |file|
      && (n == start || file[n - 1] == NEWLINE)
      && NextNewline(file, n) == |file|
  {
    hide ScanLines, CompleteLines, CommittedEnd, NextNewline;
    CommittedBoundary(file, start);
    ScanOffset(Scan(start, 0, 0, []), file, judge);
  }

  /** Rows that are already there do not influence what is added. */
  lemma {:induction false} ScanRowsIndependent(s: Scan, t: Scan, head: seq<Row>, lines: seq<seq<Byte>>, judge: Judge)
    requires s == t.(rows := head + t.rows)
    ensures ScanLines(s, lines, judge) == ScanLines(t, lines, judge).(rows := head + ScanLines(t, lines, judge).rows)
    decreases |lines|
  {
    if lines != [] {
      var s', t' := Step(s, lines[0], judge), Step(t, lines[0], judge);
      assert s'.rows == head + t'.rows;
      ScanRowsIndependent(s', t', head, lines[1..], judge);
    }
  }

  // ----- what every committed scan satisfies -----

  /** Lines that are neither indexed nor counted as skipped: blank ones and filtered-out ones. */
  function Unlisted(lines: seq<seq<Byte>>, judge: Judge): nat {
    if lines == [] then 0
    else
      var v := judge(lines[0]);
      (if v.Blank? || v.FilteredOut? then 1 else 0) + Unlisted(lines[1..], judge)
  }

  /** A row covers exactly one line of the file, and that line was judged to hold its record. */
  ghost predicate RowDescribes(row: Row, file: seq<Byte>, start: nat, judge: Judge) {
    && start <= row.offset <= |file|
    && NextNewline(file, row.offset) < |file|
    && row.offset + row.length == NextNewline(file, row.offset) + 1
    && (row.offset == start || file[row.offset - 1] == NEWLINE)
    && judge(file[row.offset..row.offset + row.length]) == Indexed(row.transaction)
  }

  /** The rows are in file order, do not overlap, and lie before `end` and up to line `last`. */
  predicate InOrder(rows: seq<Row>, end: nat, last: nat) {
    && (forall i :: 0 <= i < |rows| ==> rows[i].offset + rows[i].length <= end && rows[i].lineNumber <= last)
    && (forall i, j :: 0 <= i < j < |rows| ==>
          rows[i].offset + rows[i].length <= rows[j].offset && rows[i].lineNumber < rows[j].lineNumber)
  }

  ghost predicate RowsDescribe(s: Scan, file: seq<Byte>, start: nat, judge: Judge) {
    && start <= s.offset <= |file|
    && (s.offset == start || file[s.offset - 1] == NEWLINE)
    && (forall row | row in s.rows :: RowDescribes(row, file, start, judge))
    && InOrder(s.rows, s.offset, s.lineNumber)
  }

  lemma InOrderAppend(rows: seq<Row>, end: nat, last: nat, row: Row)
    requires InOrder(rows, end, last) && row.offset == end && row.lineNumber == last + 1
    ensures InOrder(rows + [row], end + row.length, last + 1)
  {
    var all := rows + [row];
    forall i, j | 0 <= i < j < |all|
      ensures all[i].offset + all[i].length <= all[j].offset && all[i].lineNumber < all[j].lineNumber
    {
      assert all[i] == rows[i];
      assert j < |rows| ==> all[j] == rows[j];
    }
  }

  lemma InOrderWeaken(rows: seq<Row>, end: nat, last: nat, end': nat)
    requires InOrder(rows, end, last) && end <= end'
    ensures InOrder(rows, end', last + 1)
  {
  }

  lemma StepKeepsOrder(s: Scan, line: seq<Byte>, judge: Judge)
    requires InOrder(s.rows, s.offset, s.lineNumber)
    ensures InOrder(Step(s, line, judge).rows, s.offset + |line|, s.lineNumber + 1)
  {
    hide InOrder;
    if judge(line).Indexed? {
      InOrderAppend(s.rows, s.offset, s.lineNumber, Row(s.lineNumber + 1, s.offset, |line|, judge(line).transaction));
    } else {
      InOrderWeaken(s.rows, s.offset, s.lineNumber, s.offset + |line|);
    }
  }

  lemma StepKeepsRows(s: Scan, file: seq<Byte>, start: nat, k: nat, judge: Judge)
    requires start <= s.offset <= |file| && k == NextNewline(file, s.offset) < |file|
    requires s.offset == start || file[s.offset - 1] == NEWLINE
    requires forall row | row in s.rows :: RowDescribes(row, file, start, judge)
    ensures forall row | row in Step(s, file[s.offset..k + 1], judge).rows :: RowDescribes(row, file, start, judge)
  {
    hide NextNewline;
    var line := file[s.offset..k + 1];
    if judge(line).Indexed? {
      assert RowDescribes(Row(s.lineNumber + 1, s.offset, |line|, judge(line).transaction), file, start, judge);
    }
  }

  lemma StepDescribes(s: Scan, file: seq<Byte>, start: nat, k: nat, judge: Judge)
    requires RowsDescribe(s, file, start, judge)
    requires s.offset <= |file| && k == NextNewline(file, s.offset) < |file|
    ensures RowsDescribe(Step(s, file[s.offset..k + 1], judge), file, start, judge)
  {
    hide InOrder, NextNewline, RowDescribes;
    StepKeepsOrder(s, file[s.offset..k + 1], judge);
    StepKeepsRows(s, file, start, k, judge);
  }

  lemma {:induction false} ResumeDescribes(s: Scan, file: seq<Byte>, start: nat, judge: Judge)
    requires s.offset <= |file| && RowsDescribe(s, file, start, judge)
    ensures RowsDescribe(Resume(s, file, judge), file, start, judge)
    decreases |file| - s.offset
  {
    hide RowsDescribe;
    var k := NextNewline(file, s.offset);
    if k < |file| {
      StepDescribes(s, file, start, k, judge);
      ResumeDescribes(Step(s, file[s.offset..k + 1], judge), file, start, judge);
    }
  }

  /** Every line is accounted for exactly once: as a row, as skipped, or as unlisted. */
  lemma {:induction false} LinesAccounted(s: Scan, lines: seq<seq<Byte>>, judge: Judge)
    ensures
      var r := ScanLines(s, lines, judge);
      && r.lineNumber == s.lineNumber + |lines|
      && |r.rows| + r.skipped + Unlisted(lines, judge) == |s.rows| + s.skipped + |lines|
    decreases |lines|
  {
    if lines != [] {
      LinesAccounted(Step(s, lines[0], judge), lines[1..], judge);
    }
  }

  /** The cursor invariant: the offset is the start or just after a newline with no newline behind it,
      the rows are ordered, disjoint whole lines, and every line read is accounted for exactly once. */
  lemma CursorInvariant(file: seq<Byte>, start: nat, judge: Judge)
    requires start <= |file|
    ensures
      var s := Rebuild(file, start, judge);
      && RowsDescribe(s, file, start, judge)
      && NextNewline(file, s.offset) == |file|
      && s.lineNumber == |s.rows| + s.skipped + Unlisted(CompleteLines(file, start), judge)
  {
    var s0 := Scan(start, 0, 0, []);
    RebuildOffset(file, start, judge);
    ResumeDescribes(s0, file, start, judge);
    LinesAccounted(s0, CompleteLines(file, start), judge);
  }

  // ----- the buffered reader -----

  type Positive = n: nat | n > 0 witness 1

  datatype ReadError = NoError | BufferFull | EndOfFile | Fault

  /** A reader over `data`; after the last byte it reports `ending` (the end of the file, or an I/O
      error). `windowAt` is how many bytes its buffer happens to take at a position, so the fragments
      that reach the caller are arbitrary. */
  class LineReader {
    const data: seq<Byte>
    const ending: ReadError
    const windowAt: nat -> Positive
    var position: nat

    ghost predicate Valid()
      reads this
    {
      position <= |data| && (ending == EndOfFile || ending == Fault)
    }

    constructor (data: seq<Byte>, seek: nat, ending: ReadError, windowAt: nat -> Positive)
      requires ending == EndOfFile || ending == Fault
      ensures Valid() && position == if seek <= |data| then seek else |data|
      ensures this.data == data && this.ending == ending
    {
      this.data, this.ending, this.windowAt := data, ending, windowAt;
      position := if seek <= |data| then seek else |data|;
    }

    method ReadSlice() returns (fragment: seq<Byte>, error: ReadError)
      requires Valid()
      modifies this`position
      ensures Valid()
      ensures old(position) <= position && fragment == data[old(position)..position]
      ensures
        var k := NextNewline(data, old(position));
        match error
        case NoError => k < |data| && position == k + 1
        case BufferFull => old(position) < position <= k
        case _ => error == ending && position == |data| == k
    {
      var k := NextNewline(data, position);
      var window := windowAt(position);
      var end;
      if k < |data| && k < position + window {
        end, error := k + 1, NoError;
      } else if position + window <= |data| {
        end, error := position + window, BufferFull;
      } else {
        end, error := |data|, ending;
      }
      fragment := data[position..end];
      position := end;
    }
  }

  lemma Adjacent(s: seq<Byte>, a: nat, b: nat, c: nat)
    requires a <= b <= c <= |s|
    ensures s[a..b] + s[b..c] == s[a..c]
  {
  }

  /** Joins fragments up to the next newline, and lets go of the text once it is over `maximum`. The
      result depends on the bytes alone, not on how they were cut into fragments. */
  method ReadJsonLine(reader: LineReader, maximum: nat)
    returns (line: seq<Byte>, consumed: nat, oversized: bool, error: ReadError)
    requires reader.Valid()
    modifies reader`position
    ensures reader.Valid() && reader.position == old(reader.position) + consumed
    ensures oversized <==> consumed > maximum
    ensures line == if oversized then [] else reader.data[old(reader.position)..reader.position]
    ensures
      var k := NextNewline(reader.data, old(reader.position));
      if k < |reader.data| then reader.position == k + 1 && error == NoError
      else reader.position == |reader.data| && error == reader.ending
  {
    line, consumed, oversized := [], 0, false;
    ghost var start := reader.position;
    ghost var k := NextNewline(reader.data, start);
    NoneBefore(reader.data, start);
    hide NextNewline;
    while true
      invariant reader.Valid() && reader.position == start + consumed <= k
      invariant oversized <==> consumed > maximum
      invariant line == if oversized then [] else reader.data[start..reader.position]
      decreases |reader.data| - reader.position
    {
      NextNewlineUnique(reader.data, reader.position, k);
      var fragment;
      ghost var before := reader.position;
      fragment, error := reader.ReadSlice();
      Adjacent(reader.data, start, before, reader.position);
      consumed := consumed + |fragment|;
      if !oversized && |line| + |fragment| <= maximum {
        line := line + fragment;
      } else if |fragment| > 0 {
        oversized := true;
        line := [];
      }
      if error == BufferFull {
        continue;
      }
      return;
    }
  }
}
