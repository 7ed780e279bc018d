/** Keeping the index of one session in step with its traffic file
    (cli/web_incremental.go:27-201, cli/web_index.go:299-332). */
module TrafficIndex {
  import opened Bytes
  import opened Captures
  import opened TrafficLines
  import opened TrafficDatabase

  /** What Lstat said about the traffic file before it was opened. */
  datatype FileInfo = FileInfo(device: nat, inode: nat, mtime: int, size: nat)

  /** The opened file. When `readable` is false, reading fails after the last byte of `content`. */
  datatype OpenFile = OpenFile(device: nat, inode: nat, content: seq<Byte>, readable: bool)

  /** The outcome of a transaction: the new tables, or an error and no change. */
  datatype Result = Committed(db: Db) | Failed(text: string)

  const OPEN_ERROR := "open failed"
  const READ_ERROR := "read failed"
  const BAD_OFFSET := "invalid offset"
  const REPLACED := "file replaced while scanning"

  // ----- specification -----

  function CursorAfter(s: Scan, device: nat, inode: nat, content: seq<Byte>): Cursor
    requires s.offset <= |content|
  {
    Cursor(device, inode, s.offset, s.lineNumber, s.skipped,
           HeadWindow(content, s.offset), TailWindow(content, s.offset))
  }

  function ScanResult(
    db: Db, id: string, source: Option<OpenFile>, from: Scan, device: nat, inode: nat, reset: bool, judge: Judge)
    : Result
  {
    match source
    case None => Committed(CommitCleared(db, id))
    case Some(file) =>
      if !file.readable || from.offset > |file.content| then Failed(READ_ERROR)
      else
        var s := Resume(from, file.content, judge);
        if s.offset > |file.content| then Failed(READ_ERROR)
        else Committed(CommitScan(db, id, reset, s.rows, CursorAfter(s, device, inode, file.content)))
  }

  function RebuildResult(
    db: Db, id: string, info: Option<FileInfo>, handle: Option<OpenFile>, known: bool, start: int, judge: Judge)
    : Result
  {
    match info
    case None => ScanResult(db, id, None, Scan(0, 0, 0, []), 0, 0, true, judge)
    case Some(seen) =>
      if start < 0 || start > seen.size then Failed(BAD_OFFSET)
      else
        match handle
        case None => Failed(OPEN_ERROR)
        case Some(file) =>
          if seen.device != file.device || seen.inode != file.inode then Failed(REPLACED)
          else
            ScanResult(db, id, handle, Scan(start, 0, 0, []),
                       if known then file.device else 0, if known then file.inode else 0, true, judge)
  }

  /** Whether the stored cursor still describes the beginning of the opened file. */
  predicate CursorFits(cursor: Cursor, info: FileInfo, file: OpenFile, known: bool) {
    && known && info.device == file.device && info.inode == file.inode
    && cursor.device == file.device && cursor.inode == file.inode
    && cursor.offset <= |file.content|
    && HeadWindow(file.content, cursor.offset) == cursor.head
    && TailWindow(file.content, cursor.offset) == cursor.tail
  }

  function UpdateResult(
    db: Db, id: string, info: Option<FileInfo>, handle: Option<OpenFile>, known: bool,
    previousSize: Option<int>, start: int, judge: Judge)
    : Result
  {
    if info == None || previousSize == None || info.value.size <= previousSize.value || id !in db.cursors then
      RebuildResult(db, id, info, handle, known, start, judge)
    else if handle == None then Failed(OPEN_ERROR)
    else
      var cursor := db.cursors[id];
      if CursorFits(cursor, info.value, handle.value, known) then
        ScanResult(db, id, handle, Scan(cursor.offset, cursor.lineNumber, cursor.skipped, []),
                   cursor.device, cursor.inode, false, judge)
      else RebuildResult(db, id, info, handle, known, start, judge)
  }

  /** Whether a rescan looks at the traffic at all. */
  predicate TrafficChanged(db: Db, id: string, info: Option<FileInfo>, known: bool) {
    || id !in db.sessions
    || db.sessions[id].mtime != (if info == None then 0 else info.value.mtime)
    || db.sessions[id].size != (if info == None then 0 else info.value.size)
    || (info != None &&
        (id !in db.cursors || !known
         || db.cursors[id].device != info.value.device || db.cursors[id].inode != info.value.inode))
  }

  /** One session's part of a rescan. `interrupted` says that the process dies after the session row
      was written and before the scan commits. */
  function AfterRescan(
    db: Db, id: string, status: string, info: Option<FileInfo>, handle: Option<OpenFile>, known: bool,
    start: int, judge: Judge, interrupted: bool)
    : Db
  {
    var previousSize := if id in db.sessions then Some(db.sessions[id].size) else None;
    var written := Upsert(db, id, status, if info == None then 0 else info.value.mtime,
                          if info == None then 0 else info.value.size);
    if !TrafficChanged(db, id, info, known) || interrupted then written
    else
      match UpdateResult(written, id, info, handle, known, previousSize, start, judge)
      case Committed(done) => done
      case Failed(text) => MarkFailed(written, id, text)
  }

  // ----- implementation -----

  lemma InsertOneMore(db: Db, id: string, rows: seq<Row>, row: Row)
    ensures InsertAll(InsertAll(db, id, rows), id, [row]) == InsertAll(db, id, rows + [row])
  {
    assert Numbered(id, rows + [row], db.lastRowId)
        == Numbered(id, rows, db.lastRowId) + Numbered(id, [row], db.lastRowId + |rows|);
  }

  lemma InsertNone(db: Db, id: string)
    ensures InsertAll(db, id, []) == db
  {
    assert Numbered(id, [], db.lastRowId) == [];
  }

  class WebIndex {
    var db: Db
    const parse: Parser
    const known: bool
    const windowAt: nat -> Positive

    constructor (parse: Parser, known: bool, windowAt: nat -> Positive)
      ensures db == Db(map[], [], map[], map[], 0)
      ensures this.parse == parse && this.known == known
    {
      this.parse, this.known, this.windowAt := parse, known, windowAt;
      db := Db(map[], [], map[], map[], 0);
    }

    ghost predicate Yields(error: Option<string>, before: Db, result: Result)
      reads this
    {
      match result
      case Committed(done) => error == None && db == done
      case Failed(text) => error == Some(text) && db == before
    }

    method ScanTraffic(
      id: string, source: Option<OpenFile>, from: Scan, device: nat, inode: nat, reset: bool, options: ScanOptions)
      returns (error: Option<string>)
      requires from.rows == [] && (source == None ==> reset && from == Scan(0, 0, 0, []))
      modifies this`db
      ensures Yields(error, old(db), ScanResult(old(db), id, source, from, device, inode, reset,
        JudgeFor(options, parse)))
    {
      var tx := db;
      if reset {
        tx := ResetSession(tx, id);
      }
      match source
      case None =>
        tx := tx.(cursors := tx.cursors - {id});
        db := SetError(tx, id, ErrorFor(from.skipped));
        return None;
      case Some(file) =>
        var s: Scan;
        s, tx, error := ScanFile(tx, id, file, from, options);
        if error != None {
          return;
        }
        if s.offset > |file.content| {
          return Some(READ_ERROR);
        }
        var cursor := CursorAfter(s, device, inode, file.content);
        tx := SetError(tx, id, ErrorFor(s.skipped));
        db := tx.(cursors := tx.cursors[id := cursor]);
        return None;
    }

    /** The loop over the lines of an opened file, inside the transaction `tx`. */
    method ScanFile(tx: Db, id: string, file: OpenFile, from: Scan, options: ScanOptions)
      returns (s: Scan, tx': Db, error: Option<string>)
      requires from.rows == []
      ensures error == if file.readable then None else Some(READ_ERROR)
      ensures from.offset > |file.content| ==> s.offset == from.offset
      ensures file.readable && from.offset <= |file.content| ==>
        s == Resume(from, file.content, JudgeFor(options, parse)) && tx' == InsertAll(tx, id, s.rows)
    {
      hide ScanLines, NextNewline, Step, InsertAll, Resume, JudgeFor;
      ghost var judge := JudgeFor(options, parse);
      var reader := new LineReader(file.content, from.offset, if file.readable then EndOfFile else Fault, windowAt);
      s, tx' := from, tx;
      InsertNone(tx, id);
      while true
        invariant reader.Valid() && reader.data == file.content
        invariant reader.ending == if file.readable then EndOfFile else Fault
        invariant from.offset > |file.content| ==> s.offset == from.offset && reader.position == |file.content|
        invariant from.offset <= |file.content| ==>
          s.offset == reader.position && Resume(from, file.content, judge) == Resume(s, file.content, judge)
        invariant tx' == InsertAll(tx, id, s.rows)
        decreases |file.content| - reader.position
      {
        ghost var at := reader.position;
        ghost var k := NextNewline(file.content, at);
        NoneBefore(file.content, at);
        if from.offset <= |file.content| {
          if k < |file.content| {
            ResumeStep(s, file.content, k, judge);
          } else {
            ResumeStop(s, file.content, judge);
          }
        }
        var line, consumed, oversized, ended := ReadJsonLine(reader, MAX_LINE);
        assert ended != NoError ==> k == |file.content|;
        assert ended == EndOfFile && from.offset <= |file.content| ==> s == Resume(from, file.content, judge);
        if ended == EndOfFile && consumed > 0 && !(line != [] && line[|line| - 1] == NEWLINE) {
          return s, tx', None;
        }
        if consumed > 0 {
          s, tx' := IndexLine(tx', id, s, line, consumed, oversized, options, tx, file.content[at..at + consumed]);
        }
        if ended == EndOfFile {
          return s, tx', None;
        }
        if ended != NoError {
          return s, tx', Some(READ_ERROR);
        }
      }
    }

    /** What the loop does with one line; `line` is empty when it was oversized, `text` is all of it. */
    method IndexLine(
      tx: Db, id: string, s: Scan, line: seq<Byte>, consumed: nat, oversized: bool, options: ScanOptions,
      ghost start: Db, ghost text: seq<Byte>)
      returns (s': Scan, tx': Db)
      requires tx == InsertAll(start, id, s.rows)
      requires consumed == |text| && (oversized <==> |text| > MAX_LINE)
      requires line == if oversized then [] else text
      ensures s' == Step(s, text, JudgeFor(options, parse))
      ensures s'.offset == s.offset + consumed
      ensures tx' == InsertAll(start, id, s'.rows)
    {
      hide TrimSpace, InsertAll, Wanted;
      s', tx' := s.(lineNumber := s.lineNumber + 1), tx;
      if oversized {
        s' := s'.(skipped := s'.skipped + 1);
      } else if TrimSpace(line) != [] {
        var captured := parse(line);
        if captured == None || captured.value.schemaVersion != SCHEMA_VERSION {
          s' := s'.(skipped := s'.skipped + 1);
        } else if Wanted(captured.value, options) {
          var row := Row(s'.lineNumber, s'.offset, consumed, captured.value);
          InsertOneMore(start, id, s.rows, row);
          tx' := InsertAll(tx', id, [row]);
          s' := s'.(rows := s'.rows + [row]);
        }
      }
      s' := s'.(offset := s'.offset + consumed);
    }

    method RebuildTraffic(id: string, info: Option<FileInfo>, handle: Option<OpenFile>, options: ScanOptions)
      returns (error: Option<string>)
      modifies this`db
      ensures Yields(error, old(db),
                     RebuildResult(old(db), id, info, handle, known, options.startOffset, JudgeFor(options, parse)))
    {
      if info == None {
        error := ScanTraffic(id, None, Scan(0, 0, 0, []), 0, 0, true, options);
        return;
      }
      if options.startOffset < 0 || options.startOffset > info.value.size {
        return Some(BAD_OFFSET);
      }
      if handle == None {
        return Some(OPEN_ERROR);
      }
      var file := handle.value;
      if info.value.device != file.device || info.value.inode != file.inode {
        return Some(REPLACED);
      }
      var device, inode := if known then file.device else 0, if known then file.inode else 0;
      error := ScanTraffic(id, handle, Scan(options.startOffset, 0, 0, []), device, inode, true, options);
    }

    method UpdateTraffic(
      id: string, info: Option<FileInfo>, handle: Option<OpenFile>, previousSize: Option<int>, options: ScanOptions)
      returns (error: Option<string>)
      modifies this`db
      ensures Yields(error, old(db),
                     UpdateResult(old(db), id, info, handle, known, previousSize, options.startOffset,
                       JudgeFor(options, parse)))
    {
      if info == None || previousSize == None || info.value.size <= previousSize.value {
        error := RebuildTraffic(id, info, handle, options);
        return;
      }
      if id !in db.cursors {
        error := RebuildTraffic(id, info, handle, options);
        return;
      }
      var cursor := db.cursors[id];
      if handle == None {
        return Some(OPEN_ERROR);
      }
      var file := handle.value;
      if !known || info.value.device != file.device || info.value.inode != file.inode
        || cursor.device != file.device || cursor.inode != file.inode || |file.content| < cursor.offset {
        error := RebuildTraffic(id, info, handle, options);
        return;
      }
      var head, tail := HeadWindow(file.content, cursor.offset), TailWindow(file.content, cursor.offset);
      if head != cursor.head || tail != cursor.tail {
        error := RebuildTraffic(id, info, handle, options);
        return;
      }
      error := ScanTraffic(id, handle, Scan(cursor.offset, cursor.lineNumber, cursor.skipped, []),
                           file.device, file.inode, false, options);
    }

    method RescanSession(
      id: string, status: string, info: Option<FileInfo>, handle: Option<OpenFile>, options: ScanOptions,
        interrupted: bool)
      modifies this`db
      ensures db == AfterRescan(old(db), id, status, info, handle, known, options.startOffset,
                                JudgeFor(options, parse), interrupted)
    {
      var mtime, size := 0, 0;
      if info != None {
        mtime, size := info.value.mtime, info.value.size;
      }
      var present := id in db.sessions;
      var changed := !present || db.sessions[id].mtime != mtime || db.sessions[id].size != size;
      if !changed && info != None {
        changed := id !in db.cursors || !known
          || db.cursors[id].device != info.value.device || db.cursors[id].inode != info.value.inode;
      }
      var previousSize := if present then Some(db.sessions[id].size) else None;
      db := Upsert(db, id, status, mtime, size);
      if !changed || interrupted {
        return;
      }
      var error := UpdateTraffic(id, info, handle, previousSize, options);
      if error != None {
        db := MarkFailed(db, id, error.value);
      }
    }
  }
}
