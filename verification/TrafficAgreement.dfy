/** The index agrees with a full rebuild of the traffic file, over any history of rescans. */
module TrafficAgreement {
  import opened Bytes
  import opened Captures
  import opened TrafficLines
  import opened TrafficDatabase
  import opened TrafficIndex
  import LiveStream

  /** The tables hold exactly what one pass over `file` would put there. */
  ghost predicate IndexedFrom(db: Db, id: string, file: seq<Byte>, device: nat, inode: nat, start: nat, judge: Judge) {
    && start <= |file|
    && Rebuild(file, start, judge).offset <= |file|
    && id in db.cursors
    && db.cursors[id] == CursorAfter(Rebuild(file, start, judge), device, inode, file)
    && RowsOf(db.requests, id) == Rebuild(file, start, judge).rows
  }

  ghost predicate IndexedFromNothing(db: Db, id: string) {
    id !in db.cursors && RowsOf(db.requests, id) == []
  }

  // ----- the two digest windows -----

  /** The windows of a and b at a's committed offset are equal only if all committed bytes are. */
  ghost predicate WindowsTell(a: seq<Byte>, b: seq<Byte>, start: nat, judge: Judge)
    requires start <= |a|
  {
    var n := Rebuild(a, start, judge).offset;
    n <= |a| && n <= |b| && HeadWindow(a, n) == HeadWindow(b, n) && TailWindow(a, n) == TailWindow(b, n)
    ==> a[..n] == b[..n]
  }

  /** Up to 8192 bytes the two windows cover everything. */
  lemma WindowsCover(a: seq<Byte>, b: seq<Byte>, n: nat)
    requires n <= 2 * WINDOW && n <= |a| && n <= |b|
    requires HeadWindow(a, n) == HeadWindow(b, n) && TailWindow(a, n) == TailWindow(b, n)
    ensures a[..n] == b[..n]
  {
    forall i | 0 <= i < n ensures a[i] == b[i] {
      if i < WINDOW {
        assert a[i] == HeadWindow(a, n)[i] && b[i] == HeadWindow(b, n)[i];
      } else {
        assert a[i] == TailWindow(a, n)[i - (n - WINDOW)] && b[i] == TailWindow(b, n)[i - (n - WINDOW)];
      }
    }
  }

  /** Files that begin alike up to the committed offset cannot be told apart, and need not be. */
  lemma AppendKeepsWindows(a: seq<Byte>, b: seq<Byte>, start: nat, judge: Judge)
    requires start <= |a| && a <= b
    ensures WindowsTell(a, b, start, judge)
  {
    hide Rebuild, HeadWindow, TailWindow;
  }

  // ----- one update -----

  lemma ResumeOver(s: Scan, kept: seq<Row>, file: seq<Byte>, judge: Judge)
    requires s.offset <= |file| && s.rows == []
    ensures
      var added := Resume(s, file, judge);
      Resume(s.(rows := kept), file, judge) == added.(rows := kept + added.rows)
  {
    ScanRowsIndependent(s.(rows := kept), s, kept, CompleteLines(file, s.offset), judge);
  }

  lemma CommitScanCursor(db: Db, id: string, reset: bool, rows: seq<Row>, cursor: Cursor)
    ensures
      var db' := CommitScan(db, id, reset, rows, cursor);
      id in db'.cursors && db'.cursors[id] == cursor
  {
  }

  lemma ScanAgrees(
    db: Db, id: string, file: OpenFile, s0: Scan, device: nat, inode: nat, reset: bool, start: nat, judge: Judge)
    requires start <= |file.content| && s0.offset <= |file.content| && file.readable && s0.rows == []
    requires Rebuild(file.content, start, judge)
      == Resume(s0.(rows := if reset then [] else RowsOf(db.requests, id)), file.content, judge)
    ensures
      var result := ScanResult(db, id, Some(file), s0, device, inode, reset, judge);
      result.Committed? && IndexedFrom(result.db, id, file.content, device, inode, start, judge)
  {
    var kept := if reset then [] else RowsOf(db.requests, id);
    RebuildOffset(file.content, start, judge);
    var s := Resume(s0, file.content, judge);
    ResumeOver(s0, kept, file.content, judge);
    hide Resume, Rebuild, RowsOf, CommitScan, HeadWindow, TailWindow;
    var cursor := CursorAfter(s, device, inode, file.content);
    CommitScanCursor(db, id, reset, s.rows, cursor);
    CommitScanRows(db, id, reset, s.rows, cursor);
  }

  function StoredId(known: bool, id: nat): nat {
    if known then id else 0
  }

  lemma RebuildAgrees(db: Db, id: string, info: FileInfo, file: OpenFile, known: bool, start: nat, judge: Judge)
    ensures
      match RebuildResult(db, id, Some(info), Some(file), known, start, judge)
      case Failed(_) => true
      case Committed(done) =>
        IndexedFrom(done, id, file.content, StoredId(known, file.device), StoredId(known, file.inode), start, judge)
  {
    if start <= |file.content| && file.readable {
      hide Resume;
      ScanAgrees(db, id, file, Scan(start, 0, 0, []), StoredId(known, file.device), StoredId(known, file.inode), true,
        start, judge);
    }
  }

  /** Resumed or rebuilt, a committed update leaves the tables of a full rebuild. What the resumed path
      needs is that the windows told the truth about the text the cursor came from. */
  lemma UpdateAgrees(
    db: Db, id: string, info: FileInfo, file: OpenFile, known: bool, previousSize: Option<int>,
    start: nat, judge: Judge,
    basis: seq<Byte>)
    requires id in db.cursors ==> IndexedFrom(db, id, basis, db.cursors[id].device, db.cursors[id].inode, start, judge)
    requires
      known && id in db.cursors && db.cursors[id].device == file.device && db.cursors[id].inode == file.inode ==>
      WindowsTell(basis, file.content, start, judge)
    ensures
      match UpdateResult(db, id, Some(info), Some(file), known, previousSize, start, judge)
      case Failed(_) => true
      case Committed(done) =>
        IndexedFrom(done, id, file.content, StoredId(known, file.device), StoredId(known, file.inode), start, judge)
  {
    RebuildAgrees(db, id, info, file, known, start, judge);
    if previousSize != None && info.size > previousSize.value && id in db.cursors
      && CursorFits(db.cursors[id], info, file, known) && file.readable {
      var cursor := db.cursors[id];
      ResumeEqualsRebuild(basis, file.content, start, judge);
      RebuildOffset(basis, start, judge);
      hide Resume, Rebuild, RebuildResult, HeadWindow, TailWindow;
      ScanAgrees(db, id, file, Scan(cursor.offset, cursor.lineNumber, cursor.skipped, []),
                 cursor.device, cursor.inode, false, start, judge);
    }
  }

  /** A cursor that names another file, or no file, is never resumed. */
  lemma OtherFileIsRebuilt(
    db: Db, id: string, info: FileInfo, file: OpenFile, known: bool, previousSize: Option<int>,
    start: nat, judge: Judge)
    requires known && id in db.cursors ==> db.cursors[id].device != file.device || db.cursors[id].inode != file.inode
    ensures UpdateResult(db, id, Some(info), Some(file), known, previousSize, start, judge)
      == RebuildResult(db, id, Some(info), Some(file), known, start, judge)
  {
    hide RebuildResult, HeadWindow, TailWindow;
  }

  // ----- histories of rescans -----

  datatype DiskFile = DiskFile(device: nat, inode: nat, mtime: int, content: seq<Byte>)

  datatype Fate = Completes | CannotOpen | ReadBreaks | Dies

  /** One rescan: the file as Lstat saw it, as it was when opened a moment later, how it went, and the
      scan options of the source it looked at. A session's source changes when its capture stops: from
      the running proxy's file, cut by offset, time and client, to the archive, taken whole. `others` is
      what was committed for other sessions since the rescan before. */
  datatype Observation = Observation(
    seen: Option<DiskFile>, found: Option<DiskFile>, fate: Fate, start: nat, judge: Judge,
    others: seq<LiveStream.Commit>)

  function InfoOf(file: Option<DiskFile>): Option<FileInfo> {
    match file
    case None => None
    case Some(f) => Some(FileInfo(f.device, f.inode, f.mtime, |f.content|))
  }

  function HandleOf(o: Observation): Option<OpenFile> {
    match o.found
    case None => None
    case Some(f) =>
      if o.fate == CannotOpen then None
      else Some(OpenFile(f.device, f.inode, f.content, o.fate != ReadBreaks))
  }

  function AfterLook(db: Db, id: string, o: Observation, known: bool): Db {
    AfterRescan(db, id, "", InfoOf(o.seen), HandleOf(o), known, o.start, o.judge, o.fate == Dies)
  }

  function AfterHistory(db: Db, id: string, h: seq<Observation>, known: bool): Db
    decreases |h|, 1
  {
    if h == [] then db
    else AfterLook(BeforeLast(db, id, h, known), id, h[|h| - 1], known)
  }

  /** The tables that the last rescan of a history meets. */
  function BeforeLast(db: Db, id: string, h: seq<Observation>, known: bool): Db
    requires h != []
    decreases |h|, 0
  {
    LiveStream.Replay(AfterHistory(db, id, h[..|h| - 1], known), h[|h| - 1].others)
  }

  /** Between the rescans of a session, others commit what they like about other sessions. */
  ghost predicate OthersOnly(h: seq<Observation>, id: string) {
    forall o, c | o in h && c in o.others :: c.id != id
  }

  // ----- commits of other sessions -----

  /** What the index knows about one session. */
  ghost predicate SameSession(a: Db, b: Db, id: string) {
    && (id in a.sessions <==> id in b.sessions) && (id in a.sessions ==> a.sessions[id] == b.sessions[id])
    && (id in a.cursors <==> id in b.cursors) && (id in a.cursors ==> a.cursors[id] == b.cursors[id])
    && RequestsOf(a.requests, id) == RequestsOf(b.requests, id) && EpochOf(a, id) == EpochOf(b, id)
  }

  lemma OtherCommit(db: Db, c: LiveStream.Commit, id: string)
    requires c.id != id
    ensures SameSession(db, LiveStream.Apply(db, c), id)
  {
    hide RequestsOf, Numbered;
    match c
    case Upserted(_, _, _, _) =>
    case Scanned(other, reset, rows, cursor) =>
      if other in db.sessions {
        CommitScanRequests(db, other, reset, rows, cursor, id);
      }
    case Cleared(other) =>
      WithoutIsGone(db.requests, other, id);
    case Failed(_, _) =>
    case Removed(other) =>
      WithoutIsGone(db.requests, other, id);
  }

  /** Whatever is committed for other sessions, this one stays as it is. */
  lemma {:induction false} OtherCommits(db: Db, log: seq<LiveStream.Commit>, id: string)
    requires forall c | c in log :: c.id != id
    ensures SameSession(db, LiveStream.Replay(db, log), id)
    decreases |log|
  {
    hide LiveStream.Apply, RequestsOf, EpochOf;
    if log != [] {
      OtherCommits(db, log[..|log| - 1], id);
      OtherCommit(LiveStream.Replay(db, log[..|log| - 1]), log[|log| - 1], id);
    }
  }

  predicate SameStat(a: DiskFile, b: DiskFile) {
    SameFile(a, b) && a.mtime == b.mtime && |a.content| == |b.content|
  }

  predicate SameFile(a: DiskFile, b: DiskFile) {
    a.device == b.device && a.inode == b.inode
  }

  ghost predicate SameOptions(a: Observation, b: Observation) {
    a.start == b.start && a.judge == b.judge
  }

  /** What is expected of the file system: modification times are not zero, and a file whose stat is
      the same at two rescans was not changed from the one to the other, nor is it read differently. */
  ghost predicate StatIsHonest(h: seq<Observation>) {
    && (forall o | o in h :: o.seen.Some? ==> o.seen.value.mtime != 0)
    && (forall q, r | 0 <= q < r < |h| && h[q].seen.Some? && h[r].seen.Some?
          && SameStat(h[q].seen.value, h[r].seen.value) ::
          h[q].found == h[q].seen == h[r].seen && SameOptions(h[q], h[r]))
  }

  /** Whenever the same file was met again, it was for the same source and the windows told the truth. */
  ghost predicate WindowsAreHonest(h: seq<Observation>) {
    forall q, r | 0 <= q < r < |h| && h[q].found.Some? && h[r].found.Some?
      && SameFile(h[q].found.value, h[r].found.value) ::
      && SameOptions(h[q], h[r])
      && (h[q].start <= |h[q].found.value.content| ==>
            WindowsTell(h[q].found.value.content, h[r].found.value.content, h[q].start, h[q].judge))
  }

  /** The tables come from the text found at rescan q, or there are none and q is -1. */
  ghost predicate Sourced(db: Db, id: string, h: seq<Observation>, q: int, known: bool) {
    && -1 <= q < |h|
    && (q == -1 ==> IndexedFromNothing(db, id))
    && (q >= 0 ==>
          && h[q].seen.Some? && h[q].found.Some?
          && h[q].seen.value.device == h[q].found.value.device && h[q].seen.value.inode == h[q].found.value.inode
          && var f := h[q].found.value;
             IndexedFrom(db, id, f.content, StoredId(known, f.device), StoredId(known, f.inode),
                         h[q].start, h[q].judge))
  }

  /** The session's error text is that of its cursor's skipped count. */
  predicate TellsSkipped(db: Db, id: string) {
    id in db.sessions && id in db.cursors && db.sessions[id].indexError == ErrorFor(db.cursors[id].skipped)
  }

  /** The stored fingerprint, unless it is marked failed, is the one seen at rescan q, and the session's error
      text tells how many lines were skipped then. */
  ghost predicate Fingerprinted(db: Db, id: string, h: seq<Observation>, q: int)
    requires -1 <= q < |h| && (q >= 0 ==> h[q].seen.Some?)
  {
    id in db.sessions && db.sessions[id].size >= 0 ==>
      && (q == -1 ==>
            db.sessions[id].mtime == 0 && db.sessions[id].size == 0 && db.sessions[id].indexError == Clean)
      && (q >= 0 ==>
            && db.sessions[id].mtime == h[q].seen.value.mtime
            && db.sessions[id].size == |h[q].seen.value.content|
            && TellsSkipped(db, id))
  }

  /** What holds after every rescan of a history without cuts. */
  ghost predicate Settled(db: Db, id: string, h: seq<Observation>, q: int, known: bool) {
    Sourced(db, id, h, q, known) && Fingerprinted(db, id, h, q)
  }

  predicate MarkedFailed(db: Db, id: string) {
    id in db.sessions && db.sessions[id].size == -1 && db.sessions[id].indexError.Message?
  }

  /** Right after a rescan: the session says that it failed, or its rows are those of one pass over the
      file as it was during that rescan. */
  ghost predicate Agrees(db: Db, id: string, o: Observation, known: bool) {
    || MarkedFailed(db, id)
    || (o.seen == None && IndexedFromNothing(db, id))
    || (o.found.Some? && o.seen.Some? &&
        IndexedFrom(db, id, o.found.value.content, StoredId(known, o.found.value.device),
          StoredId(known, o.found.value.inode), o.start, o.judge))
    || (o.seen.Some? &&
        IndexedFrom(db, id, o.seen.value.content, StoredId(known, o.seen.value.device),
          StoredId(known, o.seen.value.inode), o.start, o.judge))
  }

  lemma ClearedAgrees(db: Db, id: string)
    ensures IndexedFromNothing(CommitCleared(db, id), id)
    ensures id in db.sessions ==>
      id in CommitCleared(db, id).sessions
        && CommitCleared(db, id).sessions[id] == db.sessions[id].(indexError := Clean)
  {
    WithoutIsGone(db.requests, id, id);
  }

  /** A committed update opened the file it had seen, and leaves the stored fingerprint alone. */
  lemma UpdateKeepsFingerprint(
    db: Db, id: string, info: FileInfo, handle: Option<OpenFile>, known: bool, previousSize: Option<int>,
    start: nat, judge: Judge)
    requires id in db.sessions
    ensures
      match UpdateResult(db, id, Some(info), handle, known, previousSize, start, judge)
      case Failed(_) => true
      case Committed(done) =>
        && handle.Some? && info.device == handle.value.device && info.inode == handle.value.inode
        && id in done.sessions && done.sessions[id].mtime == db.sessions[id].mtime
        && done.sessions[id].size == db.sessions[id].size && TellsSkipped(done, id)
  {
    hide Resume, HeadWindow, TailWindow;
  }

  /** A rescan that looks at a file leaves what it found there, or a failure mark and the tables as they
      were; either way it agrees. */
  lemma SourceScan(
    db: Db, id: string, h: seq<Observation>, o: Observation, q: int, known: bool)
    returns (q': int)
    requires Sourced(db, id, h, q, known)
    requires WindowsAreHonest(h + [o]) && o.fate != Dies && o.seen.Some?
    requires TrafficChanged(db, id, InfoOf(o.seen), known)
    ensures
      var db' := AfterLook(db, id, o, known);
      && Sourced(db', id, h + [o], q', known) && Agrees(db', id, o, known)
      && if q' == |h| then
           id in db'.sessions && db'.sessions[id].mtime == o.seen.value.mtime
           && db'.sessions[id].size == |o.seen.value.content| && TellsSkipped(db', id)
         else MarkedFailed(db', id)
  {
    hide TrafficChanged, Rebuild, WindowsTell, HeadWindow, TailWindow, RowsOf;
    var info, handle := InfoOf(o.seen).value, HandleOf(o);
    var previousSize := if id in db.sessions then Some(db.sessions[id].size) else None;
    var written := Upsert(db, id, "", info.mtime, info.size);
    var result := UpdateResult(written, id, Some(info), handle, known, previousSize, o.start, o.judge);
    UpdateKeepsFingerprint(written, id, info, handle, known, previousSize, o.start, o.judge);
    match result
    case Failed(_) =>
      hide UpdateResult;
      q' := q;
    case Committed(done) =>
      q' := |h|;
      var file := handle.value;
      assert (h + [o])[|h|] == o && (q >= 0 ==> (h + [o])[q] == h[q]);
      if q >= 0 && known && SameFile(h[q].found.value, o.found.value) {
        UpdateAgrees(written, id, info, file, known, previousSize, o.start, o.judge, h[q].found.value.content);
      } else {
        RebuildAgrees(written, id, info, file, known, o.start, o.judge);
        OtherFileIsRebuilt(written, id, info, file, known, previousSize, o.start, o.judge);
      }
  }

  lemma SettleScan(
    db: Db, id: string, h: seq<Observation>, o: Observation, q: int, known: bool)
    returns (q': int)
    requires Settled(db, id, h, q, known)
    requires WindowsAreHonest(h + [o]) && o.fate != Dies && o.seen.Some?
    requires TrafficChanged(db, id, InfoOf(o.seen), known)
    ensures
      var db' := AfterLook(db, id, o, known);
      Settled(db', id, h + [o], q', known) && Agrees(db', id, o, known)
  {
    hide TrafficChanged, AfterLook, WindowsAreHonest, Agrees, IndexedFrom, IndexedFromNothing;
    q' := SourceScan(db, id, h, o, q, known);
    assert (h + [o])[|h|] == o;
  }

  /** A rescan that finds nothing changed was right not to look. */
  lemma SettleSkip(
    db: Db, id: string, h: seq<Observation>, o: Observation, q: int, known: bool)
    requires Settled(db, id, h, q, known)
    requires StatIsHonest(h + [o])
    requires !TrafficChanged(db, id, InfoOf(o.seen), known)
    ensures
      var db' := AfterLook(db, id, o, known);
      Settled(db', id, h + [o], q, known) && Agrees(db', id, o, known)
  {
    hide Rebuild, HeadWindow, TailWindow, RowsOf, UpdateResult;
    assert (h + [o])[|h|] == o;
    if q >= 0 {
      assert (h + [o])[q] == h[q] && h[q] in h + [o];
    }
  }

  lemma SettleCleared(
    db: Db, id: string, h: seq<Observation>, o: Observation, q: int, known: bool)
    requires Settled(db, id, h, q, known) && o.fate != Dies && o.seen == None
    requires TrafficChanged(db, id, None, known)
    ensures
      var db' := AfterLook(db, id, o, known);
      Settled(db', id, h + [o], -1, known) && Agrees(db', id, o, known)
  {
    hide TrafficChanged, Rebuild, CursorAfter, RowsOf, CommitCleared;
    ClearedAgrees(Upsert(db, id, "", 0, 0), id);
  }

  lemma SourcedAmongOthers(db: Db, id: string, h: seq<Observation>, q: int, known: bool, db': Db)
    requires Sourced(db, id, h, q, known) && SameSession(db, db', id)
    ensures Sourced(db', id, h, q, known)
  {
    hide RequestsOf, Rebuild, CursorAfter;
  }

  lemma SettledAmongOthers(db: Db, id: string, h: seq<Observation>, q: int, known: bool, db': Db)
    requires Settled(db, id, h, q, known) && SameSession(db, db', id)
    ensures Settled(db', id, h, q, known)
  {
    hide RequestsOf, Rebuild, CursorAfter;
  }

  lemma SettledAtFirst(db: Db, id: string, known: bool)
    requires id !in db.sessions && IndexedFromNothing(db, id)
    ensures Settled(db, id, [], -1, known)
  {
  }

  /** After every rescan of every history in which no rescan was cut off between its two writes, the
      session is either marked as failed or shows exactly what a full rebuild would show. */
  lemma {:induction false} HistoryAgrees(db: Db, id: string, h: seq<Observation>, known: bool)
    returns (q: int)
    requires id !in db.sessions && IndexedFromNothing(db, id)
    requires StatIsHonest(h) && WindowsAreHonest(h) && OthersOnly(h, id) && forall o | o in h :: o.fate != Dies
    ensures Settled(AfterHistory(db, id, h, known), id, h, q, known)
    ensures h != [] ==> Agrees(AfterHistory(db, id, h, known), id, h[|h| - 1], known)
    decreases |h|
  {
    hide Settled, Agrees, AfterLook, IndexedFromNothing, TrafficChanged, SameSession;
    if h == [] {
      q := -1;
      SettledAtFirst(db, id, known);
    } else {
      var front, o := h[..|h| - 1], h[|h| - 1];
      assert h == front + [o];
      q := HistoryAgrees(db, id, front, known);
      var before := BeforeLast(db, id, h, known);
      OtherCommits(AfterHistory(db, id, front, known), o.others, id);
      SettledAmongOthers(AfterHistory(db, id, front, known), id, front, q, known, before);
      if !TrafficChanged(before, id, InfoOf(o.seen), known) {
        SettleSkip(before, id, front, o, q, known);
      } else if o.seen == None {
        SettleCleared(before, id, front, o, q, known);
        q := -1;
      } else {
        q := SettleScan(before, id, front, o, q, known);
      }
    }
  }

  // ----- histories with cuts -----

  /** A rescan that dies before its scan, or finds nothing changed, leaves rows and cursor alone. */
  lemma NotLookedAt(db: Db, id: string, h: seq<Observation>, o: Observation, q: int, known: bool)
    requires Sourced(db, id, h, q, known)
    requires o.fate == Dies || !TrafficChanged(db, id, InfoOf(o.seen), known)
    ensures Sourced(AfterLook(db, id, o, known), id, h + [o], q, known)
  {
    hide Rebuild, HeadWindow, TailWindow, RowsOf, UpdateResult, CursorAfter;
    assert q >= 0 ==> (h + [o])[q] == h[q];
  }

  lemma SourceCleared(db: Db, id: string, h: seq<Observation>, o: Observation, known: bool)
    requires o.fate != Dies && o.seen == None && TrafficChanged(db, id, None, known)
    ensures
      var db' := AfterLook(db, id, o, known);
      Sourced(db', id, h + [o], -1, known) && Agrees(db', id, o, known)
  {
    hide TrafficChanged, RowsOf, CommitCleared;
    ClearedAgrees(Upsert(db, id, "", 0, 0), id);
  }

  /** Whether the last rescan of a history finds a change against the fingerprint stored for the session. */
  predicate LooksLast(db: Db, id: string, h: seq<Observation>, known: bool)
    requires h != []
  {
    TrafficChanged(BeforeLast(db, id, h, known), id, InfoOf(h[|h| - 1].seen), known)
  }

  /** In every history, cut off between its two writes wherever it may be, the tables come from some
      rescan's text, and whenever a rescan that does not die finds a change, the session agrees again. */
  lemma {:induction false} AnyHistoryHeals(db: Db, id: string, h: seq<Observation>, known: bool)
    returns (q: int)
    requires id !in db.sessions && IndexedFromNothing(db, id)
    requires WindowsAreHonest(h) && OthersOnly(h, id)
    ensures Sourced(AfterHistory(db, id, h, known), id, h, q, known)
    ensures h != [] && h[|h| - 1].fate != Dies && LooksLast(db, id, h, known) ==>
      Agrees(AfterHistory(db, id, h, known), id, h[|h| - 1], known)
    decreases |h|
  {
    hide *;
    if h == [] {
      q := -1;
      SourcedAtFirst(db, id, known);
    } else {
      var front, o := h[..|h| - 1], h[|h| - 1];
      FrontIsHonest(h, id);
      q := AnyHistoryHeals(db, id, front, known);
      LastRescan(db, id, h, known);
      OtherCommits(AfterHistory(db, id, front, known), o.others, id);
      SourcedAmongOthers(AfterHistory(db, id, front, known), id, front, q, known, BeforeLast(db, id, h, known));
      q := OneMoreRescan(BeforeLast(db, id, h, known), id, front, o, q, known);
    }
  }

  lemma SourcedAtFirst(db: Db, id: string, known: bool)
    requires IndexedFromNothing(db, id)
    ensures Sourced(AfterHistory(db, id, [], known), id, [], -1, known)
  {
  }

  /** The two recursions of a history, unfolded once. */
  lemma LastRescan(db: Db, id: string, h: seq<Observation>, known: bool)
    requires h != []
    ensures
      var front, o := h[..|h| - 1], h[|h| - 1];
      var before := BeforeLast(db, id, h, known);
      && before == LiveStream.Replay(AfterHistory(db, id, front, known), o.others)
      && AfterHistory(db, id, h, known) == AfterLook(before, id, o, known)
      && (LooksLast(db, id, h, known) <==> TrafficChanged(before, id, InfoOf(o.seen), known))
  {
    hide TrafficChanged, AfterLook, LiveStream.Replay;
  }

  lemma FrontIsHonest(h: seq<Observation>, id: string)
    requires WindowsAreHonest(h) && OthersOnly(h, id) && h != []
    ensures
      var front, o := h[..|h| - 1], h[|h| - 1];
      && h == front + [o] && WindowsAreHonest(front) && OthersOnly(front, id) && forall c | c in o.others :: c.id != id
  {
    hide WindowsTell;
    assert h[|h| - 1] in h;
  }

  lemma OneMoreRescan(db: Db, id: string, h: seq<Observation>, o: Observation, q: int, known: bool)
    returns (q': int)
    requires Sourced(db, id, h, q, known) && WindowsAreHonest(h + [o])
    ensures Sourced(AfterLook(db, id, o, known), id, h + [o], q', known)
    ensures o.fate != Dies && TrafficChanged(db, id, InfoOf(o.seen), known) ==>
      Agrees(AfterLook(db, id, o, known), id, o, known)
  {
    hide Agrees, AfterLook, TrafficChanged, Sourced, WindowsAreHonest;
    if o.fate == Dies || !TrafficChanged(db, id, InfoOf(o.seen), known) {
      NotLookedAt(db, id, h, o, q, known);
      q' := q;
    } else if o.seen == None {
      SourceCleared(db, id, h, o, known);
      q' := -1;
    } else {
      q' := SourceScan(db, id, h, o, q, known);
    }
  }

  /** The tables hold what the rescan would put there, without its looking. */
  ghost predicate RightAlready(db: Db, id: string, o: Observation, known: bool) {
    || (o.seen == None && IndexedFromNothing(db, id))
    || (o.found.Some? && o.seen.Some? &&
        IndexedFrom(db, id, o.found.value.content, StoredId(known, o.found.value.device),
          StoredId(known, o.found.value.inode), o.start, o.judge))
    || (o.seen.Some? &&
        IndexedFrom(db, id, o.seen.value.content, StoredId(known, o.seen.value.device),
          StoredId(known, o.seen.value.inode), o.start, o.judge))
  }

  lemma UnseenAgreesIff(db: Db, id: string, o: Observation, known: bool)
    requires !TrafficChanged(db, id, InfoOf(o.seen), known)
    ensures Agrees(AfterLook(db, id, o, known), id, o, known) <==> RightAlready(db, id, o, known)
  {
    hide Rebuild, RowsOf, UpdateResult, CursorAfter;
  }

  /** So after every history with any cuts, a rescan that does not die leaves the session in agreement if
      and only if it finds a change or the tables were right already. What a cut loses is lost only
      until a rescan looks again. */
  lemma CutHistoryAgreesIff(db: Db, id: string, h: seq<Observation>, known: bool)
    requires id !in db.sessions && IndexedFromNothing(db, id)
    requires WindowsAreHonest(h) && OthersOnly(h, id) && h != [] && h[|h| - 1].fate != Dies
    ensures Agrees(AfterHistory(db, id, h, known), id, h[|h| - 1], known)
      <==> LooksLast(db, id, h, known) || RightAlready(BeforeLast(db, id, h, known), id, h[|h| - 1], known)
  {
    hide Agrees, AfterLook, RightAlready, TrafficChanged, Sourced, WindowsAreHonest, IndexedFromNothing;
    var q := AnyHistoryHeals(db, id, h, known);
    if !LooksLast(db, id, h, known) {
      UnseenAgreesIff(BeforeLast(db, id, h, known), id, h[|h| - 1], known);
    }
  }

  // ----- files that only grow -----

  /** One file, always there, that only gets longer; it may grow at any byte, also between Lstat and
      opening it. */
  ghost predicate Growing(h: seq<Observation>) {
    && (forall o | o in h ::
          && o.seen.Some? && o.found.Some? && o.fate == Completes
          && SameFile(o.seen.value, o.found.value) && o.seen.value.mtime != 0
          && o.seen.value.content <= o.found.value.content && o.seen.value.mtime <= o.found.value.mtime)
    && (forall q, r :: 0 <= q < r < |h| ==>
          && SameFile(h[q].found.value, h[r].seen.value)
          && h[q].found.value.content <= h[r].seen.value.content
          && h[q].found.value.mtime <= h[r].seen.value.mtime && SameOptions(h[q], h[r]))
  }

  lemma Squeezed(a: seq<Byte>, b: seq<Byte>, c: seq<Byte>)
    requires a <= b <= c
    ensures |a| == |c| ==> a == b == c
  {
  }

  lemma GrowingIsHonest(h: seq<Observation>)
    requires Growing(h)
    ensures StatIsHonest(h) && WindowsAreHonest(h)
  {
    forall q, r | 0 <= q < r < |h|
      ensures SameStat(h[q].seen.value, h[r].seen.value) ==> h[q].found == h[q].seen == h[r].seen
      ensures SameOptions(h[q], h[r])
      ensures h[q].start <= |h[q].found.value.content| ==>
        WindowsTell(h[q].found.value.content, h[r].found.value.content, h[q].start, h[q].judge)
    {
      assert h[q] in h && h[r] in h;
      Squeezed(h[q].seen.value.content, h[q].found.value.content, h[r].seen.value.content);
      if h[q].start <= |h[q].found.value.content| {
        AppendKeepsWindows(h[q].found.value.content, h[r].found.value.content, h[q].start, h[q].judge);
      }
    }
  }

  lemma ReadableScanCommits(
    db: Db, id: string, file: OpenFile, from: Scan, device: nat, inode: nat, reset: bool, judge: Judge)
    requires file.readable && from.offset <= |file.content|
    ensures ScanResult(db, id, Some(file), from, device, inode, reset, judge).Committed?
  {
    ScanOffset(from, file.content, judge);
    hide Resume, CommitScan, HeadWindow, TailWindow;
  }

  lemma ReadableUpdateCommits(
    db: Db, id: string, info: FileInfo, file: OpenFile, known: bool, previousSize: Option<int>, start: nat,
    judge: Judge)
    requires file.readable && info.device == file.device && info.inode == file.inode
    requires start <= info.size <= |file.content|
    ensures UpdateResult(db, id, Some(info), Some(file), known, previousSize, start, judge).Committed?
  {
    hide ScanResult, HeadWindow, TailWindow;
    ReadableScanCommits(db, id, file, Scan(start, 0, 0, []), StoredId(known, file.device), StoredId(known, file.inode),
      true, judge);
    if id in db.cursors && db.cursors[id].offset <= |file.content| {
      var c := db.cursors[id];
      ReadableScanCommits(db, id, file, Scan(c.offset, c.lineNumber, c.skipped, []), c.device, c.inode, false, judge);
    }
  }

  /** A rescan of a readable file that was not swapped is never marked as failed. */
  lemma CleanRescanSucceeds(db: Db, id: string, o: Observation, known: bool)
    requires o.fate == Completes && o.seen.Some? && o.found.Some? && SameFile(o.seen.value, o.found.value)
    requires o.start <= |o.seen.value.content| <= |o.found.value.content|
    ensures !MarkedFailed(AfterLook(db, id, o, known), id)
  {
    var info, file := InfoOf(o.seen).value, HandleOf(o).value;
    var written := Upsert(db, id, "", info.mtime, info.size);
    var previousSize := if id in db.sessions then Some(db.sessions[id].size) else None;
    ReadableUpdateCommits(written, id, info, file, known, previousSize, o.start, o.judge);
    UpdateKeepsFingerprint(written, id, info, Some(file), known, previousSize, o.start, o.judge);
    hide UpdateResult, TrafficChanged;
  }

  /** Appends cut at arbitrary bytes with a rescan after each: rows, offset, line number and skipped
      count always equal those of one rebuild of the file as that rescan met it. */
  lemma IncrementalEqualsRebuild(db: Db, id: string, h: seq<Observation>, known: bool)
    requires id !in db.sessions && IndexedFromNothing(db, id)
    requires h != [] && Growing(h) && OthersOnly(h, id) && h[0].start <= |h[0].seen.value.content|
    ensures
      var o := h[|h| - 1];
      var db' := AfterHistory(db, id, h, known);
      exists file | file == o.seen.value || file == o.found.value ::
        IndexedFrom(db', id, file.content, StoredId(known, file.device), StoredId(known, file.inode), o.start, o.judge)
  {
    var o := h[|h| - 1];
    assert o in h && h[0] in h;
    GrowingIsHonest(h);
    var q := HistoryAgrees(db, id, h, known);
    var before := BeforeLast(db, id, h, known);
    assert |h| > 1 ==> h[0].found.value.content <= o.seen.value.content;
    hide Growing, IndexedFrom, AfterLook;
    CleanRescanSucceeds(before, id, o, known);
  }

  // ----- a rescan cut off between its two writes -----

  /** The fingerprint is written before the scan commits, so a rescan that dies in between is never
      made up for: the next rescan of the same file leaves the tables as they were. */
  lemma InterruptedScanIsNotRepeated(db: Db, id: string, f: DiskFile, start: nat, judge: Judge)
    requires id in db.cursors && db.cursors[id].device == f.device && db.cursors[id].inode == f.inode
    ensures
      var dying := Observation(Some(f), Some(f), Dies, start, judge, []);
      var next := Observation(Some(f), Some(f), Completes, start, judge, []);
      var db' := AfterLook(AfterLook(db, id, dying, true), id, next, true);
      db'.requests == db.requests && db'.cursors == db.cursors && !MarkedFailed(db', id)
  {
    hide UpdateResult;
  }

  /** What the next rescan makes of the cut: it looks again only if the cursor names another file or none. */
  predicate LooksAgain(db: Db, id: string, seen: Option<DiskFile>, known: bool) {
    seen.Some? && !(known && id in db.cursors
                    && db.cursors[id].device == seen.value.device && db.cursors[id].inode == seen.value.inode)
  }

  lemma CutIsSeen(db: Db, id: string, seen: Option<DiskFile>, known: bool)
    ensures
      var mtime, size := if seen == None then 0 else seen.value.mtime, if seen == None then 0 else |seen.value.content|;
      TrafficChanged(Upsert(db, id, "", mtime, size), id, InfoOf(seen), known) <==> LooksAgain(db, id, seen, known)
  {
  }

  /** The rescan that looks again rebuilds, since the file is no longer than the size stored for it. */
  lemma SecondLookAgrees(db: Db, id: string, f: DiskFile, known: bool, start: nat, judge: Judge)
    requires id in db.sessions && db.sessions[id].size == |f.content|
    requires TrafficChanged(db, id, InfoOf(Some(f)), known)
    ensures
      var next := Observation(Some(f), Some(f), Completes, start, judge, []);
      Agrees(AfterLook(db, id, next, known), id, next, known)
  {
    var info, file := InfoOf(Some(f)).value, OpenFile(f.device, f.inode, f.content, true);
    var written := Upsert(db, id, "", info.mtime, info.size);
    hide TrafficChanged, RebuildResult, IndexedFrom, IndexedFromNothing;
    RebuildAgrees(written, id, info, file, known, start, judge);
  }

  /** After a rescan that died between its two writes, and a clean one that sees the same: the session
      agrees if and only if that one looked again or the tables held the right thing all along, which is
      nothing for a file that is gone and the file's own rebuild for one that is there, however it was
      changed. */
  lemma InterruptedAgreesIff(db: Db, id: string, seen: Option<DiskFile>, known: bool, start: nat, judge: Judge)
    ensures
      var dying := Observation(seen, seen, Dies, start, judge, []);
      var next := Observation(seen, seen, Completes, start, judge, []);
      var db' := AfterLook(AfterLook(db, id, dying, known), id, next, known);
      Agrees(db', id, next, known) <==>
        || LooksAgain(db, id, seen, known)
        || match seen
           case None => IndexedFromNothing(db, id)
           case Some(f) => IndexedFrom(db, id, f.content, f.device, f.inode, start, judge)
  {
    hide UpdateResult, Rebuild, CursorAfter, RowsOf, TrafficChanged;
    var mtime, size := if seen == None then 0 else seen.value.mtime, if seen == None then 0 else |seen.value.content|;
    var cut := Upsert(db, id, "", mtime, size);
    CutIsSeen(db, id, seen, known);
    if LooksAgain(db, id, seen, known) {
      SecondLookAgrees(cut, id, seen.value, known, start, judge);
    }
  }

  /** For a file that only grew, that is: if and only if no newline follows the committed offset. */
  lemma InterruptedAppendAgreesIff(db: Db, id: string, basis: DiskFile, f: DiskFile, start: nat, judge: Judge)
    requires IndexedFrom(db, id, basis.content, f.device, f.inode, start, judge) && start <= |f.content|
    requires basis.content <= f.content
    ensures
      var dying := Observation(Some(f), Some(f), Dies, start, judge, []);
      var next := Observation(Some(f), Some(f), Completes, start, judge, []);
      var db' := AfterLook(AfterLook(db, id, dying, true), id, next, true);
      IndexedFrom(db', id, f.content, f.device, f.inode, start, judge)
      <==> NextNewline(f.content, Rebuild(basis.content, start, judge).offset) == |f.content|
  {
    InterruptedScanIsNotRepeated(db, id, f, start, judge);
    ResumeEqualsRebuild(basis.content, f.content, start, judge);
    var s := Rebuild(basis.content, start, judge);
    RebuildOffset(f.content, start, judge);
    hide Rebuild, AfterLook, RowsOf, NextNewline, HeadWindow, TailWindow;
    if NextNewline(f.content, s.offset) == |f.content| {
      ResumeStop(s, f.content, judge);
      SameWindows(basis.content, f.content, s.offset);
    }
  }

  lemma SameWindows(a: seq<Byte>, b: seq<Byte>, n: nat)
    requires n <= |a| && a <= b
    ensures HeadWindow(a, n) == HeadWindow(b, n) && TailWindow(a, n) == TailWindow(b, n)
  {
  }

  // ----- the exact reach of the windows -----

  /** An update from tables that hold one pass over `basis` leaves those of one pass over the file it
      opened, or fails. */
  ghost predicate UpdateIsRebuild(
    db: Db, id: string, info: FileInfo, file: OpenFile, previousSize: Option<int>, start: nat, judge: Judge,
    basis: seq<Byte>)
  {
    id in db.cursors && IndexedFrom(db, id, basis, db.cursors[id].device, db.cursors[id].inode, start, judge) ==>
      match UpdateResult(db, id, Some(info), Some(file), true, previousSize, start, judge)
      case Failed(_) => true
      case Committed(done) => IndexedFrom(done, id, file.content, file.device, file.inode, start, judge)
  }

  /** From a cursor of at most 8192 bytes every update is right, whatever was done to the file. */
  lemma SmallUpdateAgrees(
    db: Db, id: string, info: FileInfo, file: OpenFile, previousSize: Option<int>, start: nat, judge: Judge,
    basis: seq<Byte>)
    requires id in db.cursors ==> db.cursors[id].offset <= 8192
    ensures UpdateIsRebuild(db, id, info, file, previousSize, start, judge, basis)
  {
    if id in db.cursors && IndexedFrom(db, id, basis, db.cursors[id].device, db.cursors[id].inode, start, judge) {
      SmallWindowsTell(basis, file.content, start, judge);
      hide UpdateResult, IndexedFrom, WindowsTell;
      UpdateAgrees(db, id, info, file, true, previousSize, start, judge, basis);
    }
  }

  lemma SmallWindowsTell(a: seq<Byte>, b: seq<Byte>, start: nat, judge: Judge)
    requires start <= |a| && Rebuild(a, start, judge).offset <= 8192
    ensures WindowsTell(a, b, start, judge)
  {
    hide Rebuild, HeadWindow, TailWindow;
    var n := Rebuild(a, start, judge).offset;
    if n <= |a| && n <= |b| && HeadWindow(a, n) == HeadWindow(b, n) && TailWindow(a, n) == TailWindow(b, n) {
      WindowsCover(a, b, n);
    }
  }

  /** Every file of the history that was met again was met for the same source, and no offset that a later
      rescan could go on from was beyond n. */
  ghost predicate StaysWithin(h: seq<Observation>, n: nat) {
    && (forall q, r | 0 <= q < r < |h| && h[q].found.Some? && h[r].found.Some?
          && SameFile(h[q].found.value, h[r].found.value) :: SameOptions(h[q], h[r]))
    && forall q | 0 <= q < |h| - 1 && h[q].found.Some? && h[q].start <= |h[q].found.value.content| ::
         Rebuild(h[q].found.value.content, h[q].start, h[q].judge).offset <= n
  }

  /** Within 8192 bytes any edits at all are noticed. */
  lemma SmallHistoryIsHonest(h: seq<Observation>)
    requires StaysWithin(h, 8192)
    ensures WindowsAreHonest(h)
  {
    forall q, r | 0 <= q < r < |h| && h[q].found.Some? && h[r].found.Some?
      && SameFile(h[q].found.value, h[r].found.value)
      ensures h[q].start <= |h[q].found.value.content| ==>
        WindowsTell(h[q].found.value.content, h[r].found.value.content, h[q].start, h[q].judge)
    {
      if h[q].start <= |h[q].found.value.content| {
        SmallWindowsTell(h[q].found.value.content, h[r].found.value.content, h[q].start, h[q].judge);
      }
    }
    hide Rebuild, WindowsTell;
  }

  /** So in a history of small files every rescan leaves a full rebuild or a failure mark. */
  lemma SmallHistoryAgrees(db: Db, id: string, h: seq<Observation>, known: bool)
    requires id !in db.sessions && IndexedFromNothing(db, id) && h != []
    requires StatIsHonest(h) && StaysWithin(h, 8192) && OthersOnly(h, id) && forall o | o in h :: o.fate != Dies
    ensures Agrees(AfterHistory(db, id, h, known), id, h[|h| - 1], known)
  {
    SmallHistoryIsHonest(h);
    hide StaysWithin, StatIsHonest, WindowsAreHonest, Settled, Agrees, AfterHistory;
    var q := HistoryAgrees(db, id, h, known);
  }

  lemma ManyLines(file: seq<Byte>, p: nat, k: nat, count: nat)
    requires p <= k < |file| && file[k] == NEWLINE && NEWLINE !in file[p..k]
    requires |CompleteLines(file, k + 1)| == count
    ensures |CompleteLines(file, p)| == count + 1 && CommittedEnd(file, p) == CommittedEnd(file, k + 1)
  {
    forall i | p <= i < k ensures file[i] != NEWLINE {
      assert file[i] == file[p..k][i - p];
    }
    NextNewlineUnique(file, p, k);
    FirstLine(file, p, k);
  }

  /** One long line, and the same bytes with a newline put where neither window looks. */
  lemma UnseenEdit(n: nat, judge: Judge) returns (a: seq<Byte>, b: seq<Byte>)
    requires n > 2 * WINDOW
    ensures Rebuild(a, 0, judge).offset == n == |a| < |b|
    ensures HeadWindow(a, n) == HeadWindow(b, n) && TailWindow(a, n) == TailWindow(b, n)
    ensures Resume(Rebuild(a, 0, judge), b, judge) != Rebuild(b, 0, judge)
  {
    hide ScanLines, NextNewline, CommittedEnd, CompleteLines;
    var x: Byte := 120;
    var long := seq(n - 1, i => x);
    a := long + [NEWLINE];
    b := long[WINDOW := NEWLINE] + [NEWLINE] + [NEWLINE];
    var s0 := Scan(0, 0, 0, []);
    assert NEWLINE !in a[0..n - 1] && NEWLINE !in b[0..WINDOW] && NEWLINE !in b[WINDOW + 1..n - 1]
      && NEWLINE !in b[n..n];
    EndOfLines(a);
    EndOfLines(b);
    ManyLines(a, 0, n - 1, 0);
    ManyLines(b, n, n, 0);
    ManyLines(b, WINDOW + 1, n - 1, 1);
    ManyLines(b, 0, WINDOW, 2);
    ScanOffset(s0, a, judge);
    LinesAccounted(s0, CompleteLines(a, 0), judge);
    LinesAccounted(s0, CompleteLines(b, 0), judge);
    LinesAccounted(Rebuild(a, 0, judge), CompleteLines(b, n), judge);
    assert HeadWindow(a, n) == HeadWindow(b, n);
    assert TailWindow(a, n) == TailWindow(b, n);
  }

  lemma EndOfLines(file: seq<Byte>)
    ensures CompleteLines(file, |file|) == [] && CommittedEnd(file, |file|) == |file|
  {
  }

  /** An update that goes on from `a` over an edit of it that the windows do not show. */
  lemma UnseenUpdate(
    db: Db, id: string, info: FileInfo, file: OpenFile, previousSize: int, judge: Judge, a: seq<Byte>)
    requires IndexedFrom(db, id, a, file.device, file.inode, 0, judge) && file.readable
    requires info.device == file.device && info.inode == file.inode && info.size > previousSize
    requires
      var n := Rebuild(a, 0, judge).offset;
      && n <= |file.content| && HeadWindow(a, n) == HeadWindow(file.content, n)
      && TailWindow(a, n) == TailWindow(file.content, n)
    requires Resume(Rebuild(a, 0, judge), file.content, judge) != Rebuild(file.content, 0, judge)
    ensures
      var result := UpdateResult(db, id, Some(info), Some(file), true, Some(previousSize), 0, judge);
      result.Committed? && !IndexedFrom(result.db, id, file.content, file.device, file.inode, 0, judge)
  {
    var s := Rebuild(a, 0, judge);
    var from := s.(rows := []);
    var t := Resume(from, file.content, judge);
    ScanOffset(from, file.content, judge);
    assert s.rows + [] == s.rows;
    ScanRowsIndependent(s, from, s.rows, CompleteLines(file.content, s.offset), judge);
    hide ScanLines, CompleteLines, CommittedEnd, Rebuild, HeadWindow, TailWindow, RowsOf;
    CommitScanRequests(db, id, false, t.rows, CursorAfter(t, file.device, file.inode, file.content), id);
    CommitScanRows(db, id, false, t.rows, CursorAfter(t, file.device, file.inode, file.content));
  }

  /** The first rescan of a session indexes the file it finds. */
  lemma FirstLook(db: Db, id: string, f: DiskFile, judge: Judge)
    requires id !in db.sessions
    ensures
      var db' := AfterLook(db, id, Observation(Some(f), Some(f), Completes, 0, judge, []), true);
      && IndexedFrom(db', id, f.content, f.device, f.inode, 0, judge)
      && id in db'.sessions && db'.sessions[id].mtime == f.mtime && db'.sessions[id].size == |f.content|
  {
    var info, file := InfoOf(Some(f)).value, OpenFile(f.device, f.inode, f.content, true);
    var written := Upsert(db, id, "", f.mtime, |f.content|);
    ScanOffset(Scan(0, 0, 0, []), f.content, judge);
    UpdateKeepsFingerprint(written, id, info, Some(file), true, None, 0, judge);
    RebuildAgrees(written, id, info, file, true, 0, judge);
    hide Resume, Rebuild, IndexedFrom, HeadWindow, TailWindow;
  }

  lemma TwoLooks(db: Db, id: string, a: Observation, b: Observation, known: bool)
    requires a.others == [] && b.others == []
    ensures AfterHistory(db, id, [a, b], known) == AfterLook(AfterLook(db, id, a, known), id, b, known)
  {
    hide AfterLook;
    assert [a, b][..1] == [a] && [a][..0] == [];
    NoneReplayed(db);
    assert AfterHistory(db, id, [], known) == db;
    assert AfterHistory(db, id, [a], known) == AfterLook(db, id, a, known);
    NoneReplayed(AfterLook(db, id, a, known));
  }

  lemma NoneReplayed(db: Db)
    ensures LiveStream.Replay(db, []) == db
  {
  }

  const EMPTY_DB := Db(map[], [], map[], map[], 0)

  lemma EmptyHoldsNothing(id: string)
    ensures IndexedFromNothing(EMPTY_DB, id)
  {
  }

  /** Two plain rescans of one file for a source taken from its start: first one long line, then the same
      bytes with a newline where no window looks and a little more. Time and size change, nothing
      fails, and the tables are wrong afterwards. */
  lemma UnseenHistory(n: nat, id: string, options: ScanOptions, parse: Parser) returns (h: seq<Observation>)
    requires n > 2 * WINDOW && options.startOffset == 0
    ensures h != [] && (forall o | o in h :: o.fate != Dies && o.start == 0 && o.judge == JudgeFor(options, parse))
    ensures StatIsHonest(h) && StaysWithin(h, n) && OthersOnly(h, id)
    ensures !Agrees(AfterHistory(EMPTY_DB, id, h, true), id, h[|h| - 1], true)
  {
    var judge := JudgeFor(options, parse);
    var a, b := UnseenEdit(n, judge);
    var f, g := DiskFile(1, 1, 1, a), DiskFile(1, 1, 2, b);
    var first := Observation(Some(f), Some(f), Completes, 0, judge, []);
    var second := Observation(Some(g), Some(g), Completes, 0, judge, []);
    h := [first, second];
    hide Rebuild, HeadWindow, TailWindow, JudgeFor, Resume, AfterLook, Agrees, IndexedFrom, AfterHistory, StaysWithin;
    TwoRescans(f, g, n, id, judge);
    FirstLook(EMPTY_DB, id, f, judge);
    TwoLooks(EMPTY_DB, id, first, second, true);
    SecondLookIsWrong(AfterLook(EMPTY_DB, id, first, true), id, f, g, judge);
  }

  lemma TwoRescans(f: DiskFile, g: DiskFile, n: nat, id: string, judge: Judge)
    requires f.mtime != 0 && g.mtime != 0 && f.mtime != g.mtime && Rebuild(f.content, 0, judge).offset <= n
    ensures
      var h := [Observation(Some(f), Some(f), Completes, 0, judge, []),
        Observation(Some(g), Some(g), Completes, 0, judge, [])];
      StatIsHonest(h) && StaysWithin(h, n) && OthersOnly(h, id)
  {
    hide Rebuild;
  }

  lemma SecondLookIsWrong(db: Db, id: string, f: DiskFile, g: DiskFile, judge: Judge)
    requires IndexedFrom(db, id, f.content, f.device, f.inode, 0, judge) && SameFile(f, g)
    requires id in db.sessions && db.sessions[id].size == |f.content| < |g.content|
    requires
      var n := Rebuild(f.content, 0, judge).offset;
      && n <= |f.content| && HeadWindow(f.content, n) == HeadWindow(g.content, n)
      && TailWindow(f.content, n) == TailWindow(g.content, n)
    requires Resume(Rebuild(f.content, 0, judge), g.content, judge) != Rebuild(g.content, 0, judge)
    ensures
      var o := Observation(Some(g), Some(g), Completes, 0, judge, []);
      !Agrees(AfterLook(db, id, o, true), id, o, true)
  {
    hide Rebuild, HeadWindow, TailWindow, Resume, UpdateResult, RowsOf;
    var info, file := InfoOf(Some(g)).value, OpenFile(g.device, g.inode, g.content, true);
    var written := Upsert(db, id, "", g.mtime, |g.content|);
    UnseenUpdate(written, id, info, file, |f.content|, judge, f.content);
    UpdateKeepsFingerprint(written, id, info, Some(file), true, Some(|f.content|), 0, judge);
    hide IndexedFrom;
  }

  /** A source as the program reads one. */
  ghost predicate ReadBySource(o: Observation) {
    exists options: ScanOptions, parse: Parser :: o.start == options.startOffset && o.judge == JudgeFor(options, parse)
  }

  /** Whether every history that never goes on from an offset beyond n ends in agreement, whatever was done
      to the files. */
  ghost predicate HistoriesAgree(n: nat) {
    forall id: string, h: seq<Observation>, known: bool |
      h != [] && StatIsHonest(h) && StaysWithin(h, n) && OthersOnly(h, id)
      && (forall o | o in h :: o.fate != Dies && ReadBySource(o))
      :: Agrees(AfterHistory(EMPTY_DB, id, h, known), id, h[|h| - 1], known)
  }

  /** The two windows decide correctly exactly up to a committed offset of 8192: there every history of
      rescans ends in agreement after any edits, and above it there are edits that are not noticed. */
  lemma WindowsReachExactly(n: nat)
    ensures HistoriesAgree(n) <==> n <= 8192
  {
    hide StatIsHonest, OthersOnly, Agrees, AfterHistory, StaysWithin, IndexedFromNothing;
    if n <= 8192 {
      forall id: string, h: seq<Observation>, known: bool |
        h != [] && StatIsHonest(h) && StaysWithin(h, n) && OthersOnly(h, id)
        && (forall o | o in h :: o.fate != Dies && ReadBySource(o))
        ensures Agrees(AfterHistory(EMPTY_DB, id, h, known), id, h[|h| - 1], known)
      {
        EmptyHoldsNothing(id);
        StaysWithinMore(h, n, 8192);
        SmallHistoryAgrees(EMPTY_DB, id, h, known);
      }
    } else {
      var options, parse: Parser := ScanOptions(0, 0, ""), (_ => None);
      var h := UnseenHistory(n, "session", options, parse);
      forall o | o in h ensures ReadBySource(o) {
        assert o.start == options.startOffset && o.judge == JudgeFor(options, parse);
      }
    }
  }

  lemma StaysWithinMore(h: seq<Observation>, n: nat, m: nat)
    requires StaysWithin(h, n) && n <= m
    ensures StaysWithin(h, m)
  {
    hide Rebuild;
  }

  // ----- reading a request back -----

  datatype ReadBack = Transaction(transaction: Transaction) | TooLarge | Changed

  /** What ReadAt puts into a fresh buffer of the row's length; past the end of the file stay zeros. */
  function BytesAt(content: seq<Byte>, offset: nat, length: nat): seq<Byte> {
    seq(length, i requires 0 <= i < length => if offset + i < |content| then content[offset + i] else 0)
  }

  /** The first candidate that is there and has the identity the cursor was stored with. */
  function Identified(candidates: seq<Option<DiskFile>>, device: nat, inode: nat, known: bool): Option<DiskFile> {
    if candidates == [] || !known then None
    else if candidates[0].Some? && candidates[0].value.device == device && candidates[0].value.inode == inode then
      candidates[0]
    else Identified(candidates[1..], device, inode, known)
  }

  /** The candidates are the session's archive and, for a proxy capture, the running proxy's file. The
      result has the stored identity, and none is returned only when no candidate has it. */
  method IndexedTrafficPath(candidates: seq<Option<DiskFile>>, device: nat, inode: nat, known: bool)
    returns (r: Option<DiskFile>)
    ensures r == Identified(candidates, device, inode, known)
    ensures r.Some? ==> r in candidates && r.value.device == device && r.value.inode == inode
    ensures known && r == None ==>
      forall c | c in candidates && c.Some? :: c.value.device != device || c.value.inode != inode
  {
    for i := 0 to |candidates|
      invariant Identified(candidates, device, inode, known) == Identified(candidates[i..], device, inode, known)
      invariant known ==>
        forall c | c in candidates[..i] && c.Some? :: c.value.device != device || c.value.inode != inode
    {
      assert candidates[i..][1..] == candidates[i + 1..] && candidates[..i + 1] == candidates[..i] + [candidates[i]];
      if candidates[i] == None {
        continue;
      }
      var info := candidates[i].value;
      if known && info.device == device && info.inode == inode {
        return candidates[i];
      }
    }
    assert candidates[..|candidates|] == candidates;
    return None;
  }

  function ReadRow(row: Row, content: seq<Byte>, parse: Parser): ReadBack {
    match parse(TrimSpace(BytesAt(content, row.offset, row.length)))
    case None => Changed
    case Some(t) => ReadBack.Transaction(t)
  }

  function ReadRequest(
    row: Row, candidates: seq<Option<DiskFile>>, device: nat, inode: nat, known: bool, parse: Parser): ReadBack
  {
    if row.length <= 0 || row.length > MAX_LINE then TooLarge
    else
      match Identified(candidates, device, inode, known)
      case None => Changed
      case Some(file) => ReadRow(row, file.content, parse)
  }

  lemma RowIsJudged(file: seq<Byte>, start: nat, judge: Judge, row: Row)
    requires start <= |file| && row in Rebuild(file, start, judge).rows
    ensures row.length > 0 && row.offset + row.length <= Rebuild(file, start, judge).offset <= |file|
    ensures judge(file[row.offset..row.offset + row.length]) == Indexed(row.transaction)
  {
    CursorInvariant(file, start, judge);
    hide Rebuild, NextNewline;
    var s := Rebuild(file, start, judge);
    var i :| 0 <= i < |s.rows| && s.rows[i] == row;
    assert RowDescribes(row, file, start, judge);
  }

  lemma CommittedBytesAt(file: seq<Byte>, now: seq<Byte>, n: nat, offset: nat, length: nat)
    requires n <= |file| && n <= |now| && now[..n] == file[..n] && offset + length <= n
    ensures BytesAt(now, offset, length) == file[offset..offset + length]
  {
    assert now[offset..offset + length] == now[..n][offset..offset + length];
    assert file[offset..offset + length] == file[..n][offset..offset + length];
  }

  lemma ReadsLine(row: Row, line: seq<Byte>, now: seq<Byte>, options: ScanOptions, parse: Parser)
    requires IgnoresOuterSpace(parse) && Classify(line, options, parse) == Indexed(row.transaction)
    requires row.length == |line| > 0 && BytesAt(now, row.offset, row.length) == line
    ensures row.length <= MAX_LINE && ReadRow(row, now, parse) == ReadBack.Transaction(row.transaction)
  {
    hide TrimSpace, IgnoresOuterSpace, Wanted, BytesAt;
    TrimKeepsRecord(parse, line);
  }

  /** While a candidate still has the stored identity and its committed bytes are unchanged, every indexed
      request reads back as the record that was indexed; the length check never refuses one. When none has
      the identity, the request is reported as changed. */
  lemma ReadsBackWhatWasIndexed(
    db: Db, id: string, file: seq<Byte>, device: nat, inode: nat, start: nat, options: ScanOptions, parse: Parser,
    row: Row, candidates: seq<Option<DiskFile>>)
    requires IgnoresOuterSpace(parse)
    requires IndexedFrom(db, id, file, device, inode, start, JudgeFor(options, parse))
    requires row in RowsOf(db.requests, id)
    ensures
      var n := Rebuild(file, start, JudgeFor(options, parse)).offset;
      match Identified(candidates, device, inode, true)
      case None => ReadRequest(row, candidates, device, inode, true, parse) == Changed
      case Some(now) =>
        n <= |now.content| && n <= |file| && now.content[..n] == file[..n] ==>
          ReadRequest(row, candidates, device, inode, true, parse) == ReadBack.Transaction(row.transaction)
  {
    hide Rebuild, RowsOf, TrimSpace, IgnoresOuterSpace, Classify, BytesAt, ReadRow, CursorAfter, Identified;
    var judge := JudgeFor(options, parse);
    RowIsJudged(file, start, judge, row);
    var n := Rebuild(file, start, judge).offset;
    IndexedLineFits(file[row.offset..row.offset + row.length], options, parse, row);
    match Identified(candidates, device, inode, true)
    case None =>
    case Some(now) =>
      if n <= |now.content| && now.content[..n] == file[..n] {
        CommittedBytesAt(file, now.content, n, row.offset, row.length);
        ReadsLine(row, file[row.offset..row.offset + row.length], now.content, options, parse);
      }
  }

  lemma IndexedLineFits(line: seq<Byte>, options: ScanOptions, parse: Parser, row: Row)
    requires Classify(line, options, parse) == Indexed(row.transaction) && row.length == |line|
    ensures row.length <= MAX_LINE
  {
    hide TrimSpace, Wanted;
  }
}
