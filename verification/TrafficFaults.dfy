/** Lines that cannot be indexed are counted, and the session's error text tells how many there are
    (cli/web_incremental.go:127-160). */
module TrafficFaults {
  import opened Bytes
  import opened Captures
  import opened TrafficLines
  import opened TrafficDatabase
  import opened TrafficIndex
  import opened TrafficAgreement

  /** A line over the limit, or one that is not blank and holds no record of the known version. */
  predicate Faulty(line: seq<Byte>, parse: Parser) {
    || |line| > 32 * 1024 * 1024
    || (TrimSpace(line) != [] && (parse(line) == None || parse(line).value.schemaVersion != SCHEMA_VERSION))
  }

  function Faults(lines: seq<seq<Byte>>, parse: Parser): nat {
    if lines == [] then 0 else (if Faulty(lines[0], parse) then 1 else 0) + Faults(lines[1..], parse)
  }

  /** A record that a source wants: not before the capture began, and from the right client. */
  predicate Belongs(t: Transaction, options: ScanOptions) {
    (options.startMs == 0 || options.startMs <= t.timestampMillis)
    && (options.clientIp == "" || ClientAddressMatches(t.clientAddress, options.clientIp))
  }

  lemma StepFaults(s: Scan, line: seq<Byte>, options: ScanOptions, parse: Parser)
    ensures
      var s' := Step(s, line, JudgeFor(options, parse));
      && s'.skipped == s.skipped + (if Faulty(line, parse) then 1 else 0)
      && (s'.rows != s.rows <==>
            !Faulty(line, parse) && TrimSpace(line) != [] && Belongs(parse(line).value, options))
      && (s'.rows != s.rows ==>
            s'.rows == s.rows + [Row(s.lineNumber + 1, s.offset, |line|, parse(line).value)])
  {
    hide TrimSpace, ClientAddressMatches;
  }

  /** Over any lines, under any options: the skipped count grows by the number of faulty ones. */
  lemma {:induction false} ScanCountsFaults(s: Scan, lines: seq<seq<Byte>>, options: ScanOptions, parse: Parser)
    ensures ScanLines(s, lines, JudgeFor(options, parse)).skipped == s.skipped + Faults(lines, parse)
    decreases |lines|
  {
    hide Faulty, Step, JudgeFor;
    if lines != [] {
      StepFaults(s, lines[0], options, parse);
      ScanCountsFaults(Step(s, lines[0], JudgeFor(options, parse)), lines[1..], options, parse);
    }
  }

  /** What the session row says about n faulty lines. */
  predicate Tells(error: IndexError, n: nat) {
    if n == 0 then error == Clean else error == SkippedLines(n)
  }

  lemma TextTells(db: Db, id: string, file: seq<Byte>, device: nat, inode: nat, start: nat, options: ScanOptions,
    parse: Parser)
    requires IndexedFrom(db, id, file, device, inode, start, JudgeFor(options, parse)) && TellsSkipped(db, id)
    ensures start <= |file| && Tells(db.sessions[id].indexError, Faults(CompleteLines(file, start), parse))
  {
    hide RowsOf, ScanLines, CompleteLines, HeadWindow, TailWindow, Faults, JudgeFor;
    ScanCountsFaults(Scan(start, 0, 0, []), CompleteLines(file, start), options, parse);
  }

  /** After every rescan of every history that was not cut off, a session that is not marked as failed
      shows one pass over the text of some rescan, and its error text tells how many of the complete
      lines of that text are faulty. */
  lemma HistoryTellsFaults(db: Db, id: string, h: seq<Observation>, known: bool, sources: seq<ScanOptions>,
    parse: Parser)
    returns (q: int)
    requires id !in db.sessions && IndexedFromNothing(db, id)
    requires StatIsHonest(h) && WindowsAreHonest(h) && OthersOnly(h, id) && forall o | o in h :: o.fate != Dies
    requires |sources| == |h| && forall k | 0 <= k < |h| :: h[k].judge == JudgeFor(sources[k], parse)
    ensures
      var db' := AfterHistory(db, id, h, known);
      && Sourced(db', id, h, q, known)
      && (id in db'.sessions && db'.sessions[id].size >= 0 ==>
            if q == -1 then db'.sessions[id].indexError == Clean
            else
              var text := h[q].found.value.content;
              && h[q].start <= |text|
              && Tells(db'.sessions[id].indexError, Faults(CompleteLines(text, h[q].start), parse)))
  {
    hide AfterHistory, IndexedFrom, IndexedFromNothing, Agrees, JudgeFor, Faults, CompleteLines, Tells, TellsSkipped;
    q := HistoryAgrees(db, id, h, known);
    var db' := AfterHistory(db, id, h, known);
    if q >= 0 && id in db'.sessions && db'.sessions[id].size >= 0 {
      var f := h[q].found.value;
      TextTells(db', id, f.content, StoredId(known, f.device), StoredId(known, f.inode), h[q].start, sources[q], parse);
    }
    hide StatIsHonest, WindowsAreHonest, OthersOnly;
  }

  /** A session that is marked as failed is looked at again by the next rescan, whatever that sees. */
  lemma FailedLooksAgain(db: Db, id: string, text: string, info: Option<FileInfo>, known: bool)
    requires id in db.sessions
    ensures MarkedFailed(MarkFailed(db, id, text), id) && TrafficChanged(MarkFailed(db, id, text), id, info, known)
  {
  }

  /** A session's first rescan is marked as failed exactly when the file could not be opened or read to its
      end, was another one when it was opened, or was shorter than the source's start offset when it was
      seen or opened. */
  lemma FirstLookFailsIff(db: Db, id: string, o: Observation, known: bool)
    requires id !in db.sessions && o.fate != Dies && o.seen.Some?
    ensures MarkedFailed(AfterLook(db, id, o, known), id) <==>
      || o.found == None || o.fate != Completes
      || !SameFile(o.seen.value, o.found.value)
      || o.start > |o.seen.value.content| || o.start > |o.found.value.content|
  {
    var info, written := InfoOf(o.seen).value, Upsert(db, id, "", o.seen.value.mtime, |o.seen.value.content|);
    assert id in written.sessions && written.sessions[id].size >= 0;
    UpdateKeepsFingerprint(written, id, info, HandleOf(o), known, None, o.start, o.judge);
    if o.found.Some? && o.fate == Completes && o.start <= |o.found.value.content| {
      ReadableScanCommits(written, id, HandleOf(o).value, Scan(o.start, 0, 0, []),
        StoredId(known, o.found.value.device), StoredId(known, o.found.value.inode), true, o.judge);
    }
    hide Resume, CommitScan, HeadWindow, TailWindow, TellsSkipped;
  }
}
