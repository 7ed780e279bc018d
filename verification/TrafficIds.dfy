/** Requests that are already indexed keep their ids, and clients their view of them, while a traffic
    file only grows (cli/web_incremental.go:27-62, cli/web_index.go:299-332). */
module TrafficIds {
  import opened Bytes
  import opened Captures
  import opened TrafficLines
  import opened TrafficDatabase
  import opened TrafficIndex
  import opened TrafficAgreement
  import LiveStream

  /** Nothing that was there got a new id, and no client is told to start over. */
  ghost predicate KeepsEarlier(db: Db, db': Db, id: string) {
    EpochOf(db, id) == EpochOf(db', id) && RequestsOf(db.requests, id) <= RequestsOf(db'.requests, id)
  }

  /** All committed bytes of `basis` are still there. */
  ghost predicate KeepsCommitted(basis: seq<Byte>, content: seq<Byte>, start: nat, judge: Judge)
    requires start <= |basis|
  {
    var n := Rebuild(basis, start, judge).offset;
    n <= |basis| && n <= |content| && content[..n] == basis[..n]
  }

  lemma SameWindows(a: seq<Byte>, b: seq<Byte>, n: nat)
    requires n <= |a| && n <= |b| && a[..n] == b[..n]
    ensures HeadWindow(a, n) == HeadWindow(b, n) && TailWindow(a, n) == TailWindow(b, n)
  {
    forall i | 0 <= i < n ensures a[i] == b[i] {
      assert a[i] == a[..n][i] && b[i] == b[..n][i];
    }
  }

  lemma ResumedScan(db: Db, id: string, file: OpenFile, from: Scan, device: nat, inode: nat, judge: Judge)
    ensures
      match ScanResult(db, id, Some(file), from, device, inode, false, judge)
      case Failed(_) => true
      case Committed(done) => KeepsEarlier(db, done, id)
  {
    hide Resume, RequestsOf, Numbered, CursorAfter;
    if file.readable && from.offset <= |file.content| {
      var s := Resume(from, file.content, judge);
      if s.offset <= |file.content| {
        CommitScanRequests(db, id, false, s.rows, CursorAfter(s, device, inode, file.content), id);
      }
    }
  }

  lemma RebuiltScan(db: Db, id: string, info: FileInfo, file: OpenFile, known: bool, start: nat, judge: Judge)
    ensures
      match RebuildResult(db, id, Some(info), Some(file), known, start, judge)
      case Failed(_) => true
      case Committed(done) => EpochOf(done, id) == EpochOf(db, id) + 1
  {
    hide Resume, Without, Numbered, CursorAfter;
  }

  /** A committed update keeps the ids and the epoch of what is indexed if and only if the opened file is
      the one the tables come from, grew, and still has the committed bytes; otherwise it is a new
      epoch. The windows are asked to tell the truth for that file. */
  lemma UpdateKeepsEarlierIff(
    db: Db, id: string, info: FileInfo, file: OpenFile, known: bool, previousSize: Option<int>, start: nat,
    judge: Judge, basis: seq<Byte>)
    requires id in db.cursors
    requires IndexedFrom(db, id, basis, db.cursors[id].device, db.cursors[id].inode, start, judge)
    requires
      known && db.cursors[id].device == file.device && db.cursors[id].inode == file.inode ==>
      WindowsTell(basis, file.content, start, judge)
    ensures
      match UpdateResult(db, id, Some(info), Some(file), known, previousSize, start, judge)
      case Failed(_) => true
      case Committed(done) =>
        var resumes :=
          && known && db.cursors[id].device == file.device && db.cursors[id].inode == file.inode
          && previousSize.Some? && info.size > previousSize.value
          && KeepsCommitted(basis, file.content, start, judge);
        if resumes then KeepsEarlier(db, done, id) else EpochOf(done, id) == EpochOf(db, id) + 1
  {
    var cursor := db.cursors[id];
    var from := Scan(cursor.offset, cursor.lineNumber, cursor.skipped, []);
    FitsIff(db, id, info, file, known, start, judge, basis);
    UpdateCases(db, id, info, file, known, previousSize, start, judge);
    RebuiltScan(db, id, info, file, known, start, judge);
    ResumedScan(db, id, file, from, cursor.device, cursor.inode, judge);
    OtherwiseRefused(db, id, info, file, known, start, judge);
    hide *;
  }

  lemma UpdateCases(
    db: Db, id: string, info: FileInfo, file: OpenFile, known: bool, previousSize: Option<int>, start: nat,
    judge: Judge)
    requires id in db.cursors
    ensures
      var cursor := db.cursors[id];
      UpdateResult(db, id, Some(info), Some(file), known, previousSize, start, judge) ==
      if previousSize.Some? && info.size > previousSize.value && CursorFits(cursor, info, file, known)
      then ScanResult(db, id, Some(file), Scan(cursor.offset, cursor.lineNumber, cursor.skipped, []), cursor.device,
        cursor.inode, false, judge)
      else RebuildResult(db, id, Some(info), Some(file), known, start, judge)
  {
    hide CursorFits, ScanResult, RebuildResult;
  }

  lemma FitsIff(
    db: Db, id: string, info: FileInfo, file: OpenFile, known: bool, start: nat, judge: Judge, basis: seq<Byte>)
    requires id in db.cursors
    requires IndexedFrom(db, id, basis, db.cursors[id].device, db.cursors[id].inode, start, judge)
    requires
      known && db.cursors[id].device == file.device && db.cursors[id].inode == file.inode ==>
      WindowsTell(basis, file.content, start, judge)
    ensures CursorFits(db.cursors[id], info, file, known) <==>
      && known && info.device == file.device && info.inode == file.inode
      && db.cursors[id].device == file.device && db.cursors[id].inode == file.inode
      && KeepsCommitted(basis, file.content, start, judge)
  {
    var n := Rebuild(basis, start, judge).offset;
    if n <= |file.content| && file.content[..n] == basis[..n] {
      SameWindows(file.content, basis, n);
    }
    hide Rebuild, HeadWindow, TailWindow, RowsOf;
  }

  /** A rebuild commits only what it opened where it looked. */
  lemma OtherwiseRefused(db: Db, id: string, info: FileInfo, file: OpenFile, known: bool, start: nat, judge: Judge)
    ensures RebuildResult(db, id, Some(info), Some(file), known, start, judge).Committed? ==>
      info.device == file.device && info.inode == file.inode
  {
    hide ScanResult;
  }

  /** A readable file that is still the same one, grew, and kept its committed bytes is gone on with. */
  lemma GrownFileIsResumed(
    db: Db, id: string, info: FileInfo, file: OpenFile, previousSize: int, start: nat, judge: Judge,
    basis: seq<Byte>)
    requires id in db.cursors && IndexedFrom(db, id, basis, file.device, file.inode, start, judge)
    requires info.device == file.device && info.inode == file.inode && file.readable && info.size > previousSize
    requires KeepsCommitted(basis, file.content, start, judge)
    ensures
      var result := UpdateResult(db, id, Some(info), Some(file), true, Some(previousSize), start, judge);
      result.Committed? && KeepsEarlier(db, result.db, id)
  {
    var cursor := db.cursors[id];
    var from := Scan(cursor.offset, cursor.lineNumber, cursor.skipped, []);
    SameWindows(file.content, basis, Rebuild(basis, start, judge).offset);
    ResumedScan(db, id, file, from, cursor.device, cursor.inode, judge);
    ReadableScanCommits(db, id, file, from, cursor.device, cursor.inode, false, judge);
    hide Rebuild, RequestsOf, EpochOf, ScanResult, RebuildResult, KeepsEarlier, HeadWindow, TailWindow;
  }

  // ----- over the history of a growing file -----

  /** The session row is that of the last look at `seen`, and the tables come from `basis`. */
  ghost predicate Follows(db: Db, id: string, seen: DiskFile, basis: DiskFile, start: nat, judge: Judge) {
    && id in db.sessions && db.sessions[id].mtime == seen.mtime && db.sessions[id].size == |seen.content|
    && IndexedFrom(db, id, basis.content, basis.device, basis.inode, start, judge)
  }

  /** What a look at a file that did not shrink meets. */
  ghost predicate LooksAtGrown(o: Observation, seen: DiskFile, basis: DiskFile) {
    && o.fate == Completes && o.seen.Some? && o.found.Some?
    && SameFile(basis, o.seen.value) && SameFile(o.seen.value, o.found.value) && SameFile(seen, o.seen.value)
    && o.start <= |basis.content| && |seen.content| <= |o.seen.value.content|
    && basis.content <= o.seen.value.content && o.seen.value.content <= o.found.value.content
  }

  lemma LookAfterUpsert(db: Db, id: string, o: Observation)
    requires o.fate == Completes && o.seen.Some? && o.found.Some? && id in db.sessions
    ensures
      var f, g := o.seen.value, o.found.value;
      var info := FileInfo(f.device, f.inode, f.mtime, |f.content|);
      var file := OpenFile(g.device, g.inode, g.content, true);
      var written := Upsert(db, id, "", f.mtime, |f.content|);
      var db' := AfterLook(db, id, o, true);
      if !TrafficChanged(db, id, Some(info), true) then db' == written
      else
        match UpdateResult(written, id, Some(info), Some(file), true, Some(db.sessions[id].size), o.start, o.judge)
        case Failed(_) => true
        case Committed(done) => db' == done
  {
    hide TrafficChanged, UpdateResult;
  }

  /** A look at the same stat changes nothing at all. */
  lemma SameStatIsSkipped(db: Db, id: string, o: Observation, seen: DiskFile, basis: DiskFile)
    requires Follows(db, id, seen, basis, o.start, o.judge) && LooksAtGrown(o, seen, basis)
    requires SameStat(seen, o.seen.value)
    ensures
      var db' := AfterLook(db, id, o, true);
      Follows(db', id, o.seen.value, basis, o.start, o.judge) && EpochOf(db', id) == EpochOf(db, id)
        && db'.requests == db.requests
  {
    CursorNames(db, id, basis, o.start, o.judge);
    hide UpdateResult, Rebuild, CursorAfter, RowsOf;
  }

  lemma UpsertKeepsRows(db: Db, id: string, mtime: int, size: int)
    requires id in db.sessions
    ensures
      var written := Upsert(db, id, "", mtime, size);
      && written.requests == db.requests && written.cursors == db.cursors && written.epochs == db.epochs
      && id in written.sessions && written.sessions[id].mtime == mtime && written.sessions[id].size == size
  {
  }

  /** A look at the same file with another stat indexes it again: going on if it is longer, and from the
      start under a new epoch if it was only touched. */
  lemma OtherStatIsIndexed(db: Db, id: string, o: Observation, seen: DiskFile, basis: DiskFile)
    requires Follows(db, id, seen, basis, o.start, o.judge) && LooksAtGrown(o, seen, basis)
    requires !SameStat(seen, o.seen.value)
    ensures
      var db' := AfterLook(db, id, o, true);
      && Follows(db', id, o.seen.value, o.found.value, o.start, o.judge)
      && if |seen.content| < |o.seen.value.content| then KeepsEarlier(db, db', id)
         else EpochOf(db', id) == EpochOf(db, id) + 1
  {
    var f, g := o.seen.value, o.found.value;
    var info, file := FileInfo(f.device, f.inode, f.mtime, |f.content|), OpenFile(g.device, g.inode, g.content, true);
    var written := Upsert(db, id, "", f.mtime, |f.content|);
    var previousSize := db.sessions[id].size;
    assert TrafficChanged(db, id, Some(info), true);
    LookAfterUpsert(db, id, o);
    UpsertKeepsRows(db, id, f.mtime, |f.content|);
    assert IndexedFrom(written, id, basis.content, basis.device, basis.inode, o.start, o.judge) by {
      hide Rebuild, CursorAfter, RowsOf;
    }
    CursorNames(written, id, basis, o.start, o.judge);
    hide TrafficChanged, Upsert, IndexedFrom, AfterLook, UpdateResult, Rebuild;
    AppendKeepsWindows(basis.content, g.content, o.start, o.judge);
    AppendKeepsCommitted(basis.content, g.content, o.start, o.judge);
    ReadableUpdateCommits(written, id, info, file, true, Some(previousSize), o.start, o.judge);
    UpdateAgrees(written, id, info, file, true, Some(previousSize), o.start, o.judge, basis.content);
    UpdateKeepsEarlierIff(written, id, info, file, true, Some(previousSize), o.start, o.judge, basis.content);
    UpdateKeepsFingerprint(written, id, info, Some(file), true, Some(previousSize), o.start, o.judge);
    hide KeepsCommitted, WindowsTell;
  }

  lemma CursorNames(db: Db, id: string, basis: DiskFile, start: nat, judge: Judge)
    requires IndexedFrom(db, id, basis.content, basis.device, basis.inode, start, judge)
    ensures id in db.cursors && db.cursors[id].device == basis.device && db.cursors[id].inode == basis.inode
  {
    hide Rebuild, HeadWindow, TailWindow, RowsOf;
  }

  lemma AppendKeepsCommitted(a: seq<Byte>, b: seq<Byte>, start: nat, judge: Judge)
    requires start <= |a| && a <= b && Rebuild(a, start, judge).offset <= |a|
    ensures KeepsCommitted(a, b, start, judge)
  {
    hide Rebuild;
  }

  /** The stat changed although the file did not get longer. */
  predicate Touched(a: DiskFile, b: DiskFile) {
    |a.content| == |b.content| && a.mtime != b.mtime
  }

  /** How often a rescan met the file touched. */
  function Touches(h: seq<Observation>): nat
    requires forall o | o in h :: o.seen.Some?
  {
    var n := |h|;
    if n <= 1 then 0
    else Touches(h[..n - 1]) + (if Touched(h[n - 2].seen.value, h[n - 1].seen.value) then 1 else 0)
  }

  lemma GrowingSees(h: seq<Observation>)
    requires Growing(h)
    ensures forall o | o in h :: o.seen.Some?
  {
  }

  lemma GrowingFront(h: seq<Observation>, id: string)
    requires Growing(h) && OthersOnly(h, id) && h != []
    ensures
      var front := h[..|h| - 1];
      Growing(front) && OthersOnly(front, id) && forall c | c in h[|h| - 1].others :: c.id != id
  {
    assert h[|h| - 1] in h;
  }

  /** What the last look of a growing history meets: the look before, and any earlier one its tables may
      come from. */
  lemma GrowingLooks(h: seq<Observation>, q: nat)
    requires Growing(h) && |h| >= 2 && q < |h| - 1 && h[0].start <= |h[0].seen.value.content|
    ensures LooksAtGrown(h[|h| - 1], h[|h| - 2].seen.value, h[q].found.value)
    ensures SameOptions(h[q], h[|h| - 1]) && h[q].start == h[0].start
  {
    var n := |h| - 1;
    assert h[0] in h && h[q] in h && h[n - 1] in h && h[n] in h;
    assert h[q].found.value.content <= h[n].seen.value.content;
    assert h[n - 1].found.value.content <= h[n].seen.value.content;
    assert q > 0 ==> SameOptions(h[0], h[q]) && h[0].found.value.content <= h[q].seen.value.content;
  }

  lemma FirstLookIndexes(db: Db, id: string, o: Observation)
    requires id !in db.sessions && IndexedFromNothing(db, id)
    requires o.fate == Completes && o.seen.Some? && o.found.Some? && SameFile(o.seen.value, o.found.value)
    requires o.start <= |o.seen.value.content| <= |o.found.value.content|
    ensures
      var db' := AfterLook(db, id, o, true);
      Follows(db', id, o.seen.value, o.found.value, o.start, o.judge) && EpochOf(db', id) == EpochOf(db, id) + 1
  {
    var f, g := o.seen.value, o.found.value;
    var info, file := FileInfo(f.device, f.inode, f.mtime, |f.content|), OpenFile(g.device, g.inode, g.content, true);
    var written := Upsert(db, id, "", f.mtime, |f.content|);
    FirstIsRebuilt(db, id, o);
    assert EpochOf(written, id) == EpochOf(db, id) && id in written.sessions && id !in written.cursors;
    assert written.sessions[id].mtime == f.mtime && written.sessions[id].size == |f.content|;
    hide AfterLook, Upsert, IndexedFrom, Rebuild, EpochOf;
    ReadableUpdateCommits(written, id, info, file, true, None, o.start, o.judge);
    UpdateKeepsFingerprint(written, id, info, Some(file), true, None, o.start, o.judge);
    RebuildAgrees(written, id, info, file, true, o.start, o.judge);
    RebuiltScan(written, id, info, file, true, o.start, o.judge);
    hide RebuildResult;
  }

  lemma FirstIsRebuilt(db: Db, id: string, o: Observation)
    requires id !in db.sessions && o.fate == Completes && o.seen.Some? && o.found.Some?
    ensures
      var f, g := o.seen.value, o.found.value;
      var info := FileInfo(f.device, f.inode, f.mtime, |f.content|);
      var file := OpenFile(g.device, g.inode, g.content, true);
      var written := Upsert(db, id, "", f.mtime, |f.content|);
      match UpdateResult(written, id, Some(info), Some(file), true, None, o.start, o.judge)
      case Failed(_) => true
      case Committed(done) => AfterLook(db, id, o, true) == done
  {
    hide UpdateResult;
  }

  lemma OthersKeepFollowing(db: Db, db': Db, id: string, seen: DiskFile, basis: DiskFile, start: nat, judge: Judge)
    requires Follows(db, id, seen, basis, start, judge) && SameSession(db, db', id)
    ensures Follows(db', id, seen, basis, start, judge)
  {
    hide Rebuild, CursorAfter, RequestsOf;
  }

  /** The last look of a growing history, whatever others committed before it. */
  lemma GrowingStep(db: Db, id: string, h: seq<Observation>, q: nat) returns (q': nat)
    requires Growing(h) && |h| >= 2 && q < |h| - 1 && h[0].start <= |h[0].seen.value.content|
    requires Follows(db, id, h[|h| - 2].seen.value, h[q].found.value, h[q].start, h[q].judge)
    ensures q' < |h|
    ensures
      var seen, o := h[|h| - 2].seen.value, h[|h| - 1];
      var db' := AfterLook(db, id, o, true);
      && Follows(db', id, o.seen.value, h[q'].found.value, h[q'].start, h[q'].judge)
      && if Touched(seen, o.seen.value) then EpochOf(db', id) == EpochOf(db, id) + 1 else KeepsEarlier(db, db', id)
  {
    var seen, o := h[|h| - 2].seen.value, h[|h| - 1];
    GrowingLooks(h, q);
    hide Growing, Follows, AfterLook, EpochOf, RequestsOf;
    if SameStat(seen, o.seen.value) {
      q' := q;
      SameStatIsSkipped(db, id, o, seen, h[q].found.value);
    } else {
      q' := |h| - 1;
      OtherStatIsIndexed(db, id, o, seen, h[q].found.value);
    }
  }

  lemma OneLook(db: Db, id: string, o: Observation)
    requires OthersOnly([o], id)
    ensures
      var before := LiveStream.Replay(db, o.others);
      AfterHistory(db, id, [o], true) == AfterLook(before, id, o, true) && SameSession(db, before, id)
  {
    hide AfterLook, SameSession;
    assert o in [o] && [o][..0] == [] && AfterHistory(db, id, [], true) == db;
    OtherCommits(db, o.others, id);
  }

  lemma MoreLooks(db: Db, id: string, h: seq<Observation>)
    requires h != [] && forall c | c in h[|h| - 1].others :: c.id != id
    ensures
      var front, o := h[..|h| - 1], h[|h| - 1];
      var before := LiveStream.Replay(AfterHistory(db, id, front, true), o.others);
      AfterHistory(db, id, h, true) == AfterLook(before, id, o, true)
        && SameSession(AfterHistory(db, id, front, true), before, id)
  {
    hide AfterLook, SameSession;
    OtherCommits(AfterHistory(db, id, h[..|h| - 1], true), h[|h| - 1].others, id);
  }

  /** Over the whole history of a file that only grows, the session's epoch is one more than the number of
      rescans that met the file touched: appends alone, cut at any byte, never start a new one. */
  lemma {:induction false} EpochCountsTouches(db: Db, id: string, h: seq<Observation>) returns (q: nat)
    requires id !in db.sessions && IndexedFromNothing(db, id)
    requires h != [] && Growing(h) && OthersOnly(h, id) && h[0].start <= |h[0].seen.value.content|
    ensures forall o | o in h :: o.seen.Some?
    ensures EpochOf(AfterHistory(db, id, h, true), id) == EpochOf(db, id) + 1 + Touches(h)
    ensures q < |h|
    ensures Follows(AfterHistory(db, id, h, true), id, h[|h| - 1].seen.value, h[q].found.value, h[q].start, h[q].judge)
    decreases |h|
  {
    GrowingSees(h);
    GrowingFront(h, id);
    var front, o := h[..|h| - 1], h[|h| - 1];
    if |h| == 1 {
      assert h == [o] && o in h;
      q := 0;
      hide AfterHistory, AfterLook, Follows, EpochOf, RequestsOf;
      OneLook(db, id, o);
      NothingAmongOthers(db, LiveStream.Replay(db, o.others), id);
      FirstLookIndexes(LiveStream.Replay(db, o.others), id, o);
    } else {
      assert front[0] == h[0] && front[|front| - 1] == h[|h| - 2];
      hide Growing, AfterHistory, AfterLook, Follows, EpochOf, RequestsOf, SameSession;
      q := EpochCountsTouches(db, id, front);
      MoreLooks(db, id, h);
      var before := LiveStream.Replay(AfterHistory(db, id, front, true), o.others);
      OthersKeepFollowing(AfterHistory(db, id, front, true), before, id, h[|h| - 2].seen.value, h[q].found.value,
        h[q].start, h[q].judge);
      OthersKeepEpoch(AfterHistory(db, id, front, true), before, id);
      q := GrowingStep(before, id, h, q);
    }
  }

  lemma NothingAmongOthers(db: Db, db': Db, id: string)
    requires id !in db.sessions && IndexedFromNothing(db, id) && SameSession(db, db', id)
    ensures id !in db'.sessions && IndexedFromNothing(db', id) && EpochOf(db', id) == EpochOf(db, id)
  {
    hide RequestsOf;
  }

  lemma OthersKeepEpoch(db: Db, db': Db, id: string)
    requires SameSession(db, db', id)
    ensures EpochOf(db', id) == EpochOf(db, id) && KeepsEarlier(db, db', id)
  {
    hide RequestsOf;
  }

  lemma LastLookKeeps(db: Db, id: string, h: seq<Observation>)
    requires id !in db.sessions && IndexedFromNothing(db, id)
    requires |h| >= 2 && Growing(h) && OthersOnly(h, id) && h[0].start <= |h[0].seen.value.content|
    ensures forall o | o in h :: o.seen.Some?
    ensures Touches(h) == Touches(h[..|h| - 1]) ==>
      KeepsEarlier(AfterHistory(db, id, h[..|h| - 1], true), AfterHistory(db, id, h, true), id)
    ensures Touches(h[..|h| - 1]) <= Touches(h)
  {
    GrowingSees(h);
    GrowingFront(h, id);
    var front := h[..|h| - 1];
    var was := AfterHistory(db, id, front, true);
    assert front[0] == h[0] && front[|front| - 1] == h[|h| - 2];
    hide Growing, AfterHistory, AfterLook, Follows, EpochOf, RequestsOf, SameSession, KeepsEarlier;
    var q := EpochCountsTouches(db, id, front);
    MoreLooks(db, id, h);
    var before := LiveStream.Replay(was, h[|h| - 1].others);
    OthersKeepFollowing(was, before, id, h[|h| - 2].seen.value, h[q].found.value, h[q].start, h[q].judge);
    OthersKeepEpoch(was, before, id);
    var q' := GrowingStep(before, id, h, q);
    EarlierChain(was, before, AfterHistory(db, id, h, true), id);
  }

  lemma {:induction false} UntouchedKeepsEarlier(db: Db, id: string, h: seq<Observation>, k: nat)
    requires id !in db.sessions && IndexedFromNothing(db, id)
    requires 0 < k <= |h| && Growing(h) && OthersOnly(h, id) && h[0].start <= |h[0].seen.value.content|
    ensures forall o | o in h :: o.seen.Some?
    ensures Touches(h[..k]) <= Touches(h)
    ensures Touches(h[..k]) == Touches(h) ==>
      KeepsEarlier(AfterHistory(db, id, h[..k], true), AfterHistory(db, id, h, true), id)
    decreases |h|
  {
    GrowingSees(h);
    GrowingFront(h, id);
    var front := h[..|h| - 1];
    hide Growing, AfterHistory, EpochOf, RequestsOf, Touches;
    if k == |h| {
      assert h[..k] == h;
    } else {
      assert front[..k] == h[..k] && front[0] == h[0];
      hide KeepsEarlier;
      UntouchedKeepsEarlier(db, id, front, k);
      LastLookKeeps(db, id, h);
      EarlierChain(AfterHistory(db, id, h[..k], true), AfterHistory(db, id, front, true), AfterHistory(db, id, h, true),
        id);
    }
  }

  /** From one rescan to a later one of a growing history, every indexed request keeps its id and its place,
      under the same epoch, if and only if no rescan in between met the file touched. */
  lemma GrowingKeepsEarlierIff(db: Db, id: string, h: seq<Observation>, k: nat)
    requires id !in db.sessions && IndexedFromNothing(db, id)
    requires 0 < k <= |h| && Growing(h) && OthersOnly(h, id) && h[0].start <= |h[0].seen.value.content|
    ensures forall o | o in h :: o.seen.Some?
    ensures KeepsEarlier(AfterHistory(db, id, h[..k], true), AfterHistory(db, id, h, true), id)
      <==> Touches(h[..k]) == Touches(h)
  {
    hide Growing, AfterHistory, Follows, EpochOf, RequestsOf, Touches;
    UntouchedKeepsEarlier(db, id, h, k);
    var whole := EpochCountsTouches(db, id, h);
    var part := GrowingPart(db, id, h, k);
  }

  lemma GrowingPart(db: Db, id: string, h: seq<Observation>, k: nat) returns (q: nat)
    requires id !in db.sessions && IndexedFromNothing(db, id)
    requires 0 < k <= |h| && Growing(h) && OthersOnly(h, id) && h[0].start <= |h[0].seen.value.content|
    ensures forall o | o in h :: o.seen.Some?
    ensures EpochOf(AfterHistory(db, id, h[..k], true), id) == EpochOf(db, id) + 1 + Touches(h[..k])
  {
    GrowingSees(h);
    var part := h[..k];
    assert part[0] == h[0] && forall o | o in part :: o in h;
    assert Growing(part);
    assert OthersOnly(part, id);
    hide AfterHistory, EpochOf, Growing, OthersOnly;
    q := EpochCountsTouches(db, id, part);
  }

  lemma EarlierChain(a: Db, b: Db, c: Db, id: string)
    ensures KeepsEarlier(a, b, id) && KeepsEarlier(b, c, id) ==> KeepsEarlier(a, c, id)
  {
    hide RequestsOf, EpochOf;
  }
}
