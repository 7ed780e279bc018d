/** The live event stream over an index that other connections keep rescanning
    (cli/web_live.go:24-192). */
module LiveStream {
  import opened Captures
  import opened TrafficLines
  import opened TrafficDatabase
  import TrafficIndex

  /** Everything that anybody commits to the index tables. */
  datatype Commit =
    | Upserted(id: string, status: string, mtime: int, size: int)
    | Scanned(id: string, reset: bool, rows: seq<Row>, cursor: Cursor)
    | Cleared(id: string)
    | Failed(id: string, text: string)
    | Removed(id: string)

  function Apply(db: Db, c: Commit): Db {
    match c
    case Upserted(id, status, mtime, size) => Upsert(db, id, status, mtime, size)
    case Scanned(id, reset, rows, cursor) =>
      if id in db.sessions then CommitScan(db, id, reset, rows, cursor) else db
    case Cleared(id) => if id in db.sessions then CommitCleared(db, id) else db
    case Failed(id, text) => MarkFailed(db, id, text)
    case Removed(id) => RemoveSession(db, id)
  }

  function Replay(db: Db, log: seq<Commit>): Db {
    if log == [] then db else Apply(Replay(db, log[..|log| - 1]), log[|log| - 1])
  }

  lemma {:induction false} ReplaySplit(db: Db, a: seq<Commit>, b: seq<Commit>)
    ensures Replay(db, a + b) == Replay(Replay(db, a), b)
    decreases |b|
  {
    hide Apply;
    if b == [] {
      assert a + b == a;
    } else {
      ReplaySplit(db, a, b[..|b| - 1]);
      assert (a + b)[..|a + b| - 1] == a + b[..|b| - 1];
    }
  }

  /** A rescan of one session is one or two such commits. */
  lemma RescanIsReplay(
    db: Db, id: string, status: string, info: Option<TrafficIndex.FileInfo>, handle: Option<TrafficIndex.OpenFile>,
    known: bool, start: int, judge: Judge, interrupted: bool)
    returns (log: seq<Commit>)
    ensures TrafficIndex.AfterRescan(db, id, status, info, handle, known, start, judge, interrupted) == Replay(db, log)
    ensures Removed(id) !in log
  {
    hide TrafficIndex.TrafficChanged, TrafficIndex.CursorFits, Resume, CommitScan, CommitCleared, MarkFailed,
      TrafficIndex.CursorAfter;
    var mtime, size := if info == None then 0 else info.value.mtime, if info == None then 0 else info.value.size;
    var previousSize := if id in db.sessions then Some(db.sessions[id].size) else None;
    var written := Upsert(db, id, status, mtime, size);
    var first := [Upserted(id, status, mtime, size)];
    assert Replay(db, first) == written by {
      assert Replay(db, []) == db;
    }
    if !TrafficIndex.TrafficChanged(db, id, info, known) || interrupted {
      log := first;
    } else {
      var second := UpdateIsCommit(written, id, info, handle, known, previousSize, start, judge);
      log := first + [second];
      assert log[..1] == first;
    }
  }

  lemma UpdateIsCommit(
    db: Db, id: string, info: Option<TrafficIndex.FileInfo>, handle: Option<TrafficIndex.OpenFile>, known: bool,
    previousSize: Option<int>, start: int, judge: Judge)
    returns (c: Commit)
    requires id in db.sessions
    ensures c != Removed(id)
    ensures
      match TrafficIndex.UpdateResult(db, id, info, handle, known, previousSize, start, judge)
      case Committed(done) => done == Apply(db, c)
      case Failed(text) => c == Failed(id, text)
  {
    hide TrafficIndex.CursorFits, Resume, CommitScan, CommitCleared, MarkFailed, TrafficIndex.CursorAfter;
    var result := TrafficIndex.UpdateResult(db, id, info, handle, known, previousSize, start, judge);
    match result
    case Failed(text) => c := Failed(id, text);
    case Committed(done) =>
      if done == CommitCleared(db, id) {
        c := Cleared(id);
      } else {
        var reset, rows, cursor :| done == CommitScan(db, id, reset, rows, cursor);
        c := Scanned(id, reset, rows, cursor);
      }
  }

  // ----- what the tables keep -----

  predicate IdsAscend(requests: seq<Request>, last: nat) {
    && (forall i :: 0 <= i < |requests| ==> 1 <= requests[i].id <= last)
    && (forall i, j :: 0 <= i < j < |requests| ==> requests[i].id < requests[j].id)
  }

  ghost predicate WellFormed(db: Db) {
    && IdsAscend(db.requests, db.lastRowId)
    && (forall r | r in db.requests :: r.session in db.sessions)
    && db.cursors.Keys <= db.sessions.Keys && db.epochs.Keys <= db.sessions.Keys
  }

  /** The second state keeps the id sequence of the first: no id is ever given out again. */
  ghost predicate KeepsIds(db: Db, db': Db) {
    && db.lastRowId <= db'.lastRowId
    && forall r | r in db'.requests && r.id <= db.lastRowId :: r in db.requests
  }

  lemma WithoutOne(requests: seq<Request>, id: string)
    requires requests != []
    ensures
      var front, r := requests[..|requests| - 1], requests[|requests| - 1];
      Without(requests, id) == if r.session == id then Without(front, id) else Without(front, id) + [r]
  {
  }

  lemma AscendFront(requests: seq<Request>, last: nat)
    requires requests != [] && IdsAscend(requests, last)
    ensures
      var front, r := requests[..|requests| - 1], requests[|requests| - 1];
      1 <= r.id <= last && IdsAscend(front, r.id - 1)
  {
    var front := requests[..|requests| - 1];
    forall i | 0 <= i < |front| ensures front[i] == requests[i] {
    }
  }

  lemma {:induction false} WithoutSubsequence(requests: seq<Request>, id: string, last: nat)
    ensures forall r :: r in Without(requests, id) <==> r in requests && r.session != id
    ensures IdsAscend(requests, last) ==> IdsAscend(Without(requests, id), last)
    decreases |requests|
  {
    if requests != [] {
      hide Without, IdsAscend;
      var front, r := requests[..|requests| - 1], requests[|requests| - 1];
      assert requests == front + [r];
      WithoutOne(requests, id);
      if IdsAscend(requests, last) {
        AscendFront(requests, last);
        WithoutSubsequence(front, id, r.id - 1);
        AscendOneMore(Without(front, id), r, last);
      } else {
        WithoutSubsequence(front, id, last);
      }
    }
  }

  lemma AscendOneMore(requests: seq<Request>, r: Request, last: nat)
    requires 1 <= r.id <= last && IdsAscend(requests, r.id - 1)
    ensures IdsAscend(requests + [r], last) && IdsAscend(requests, last)
  {
  }

  lemma NumberedAscend(requests: seq<Request>, id: string, rows: seq<Row>, last: nat)
    requires IdsAscend(requests, last)
    ensures IdsAscend(requests + Numbered(id, rows, last), last + |rows|)
    ensures forall r | r in Numbered(id, rows, last) :: r.id > last && r.session == id
  {
  }

  lemma ScanKeepsTables(db: Db, id: string, reset: bool, rows: seq<Row>, cursor: Cursor)
    requires WellFormed(db) && id in db.sessions
    ensures WellFormed(CommitScan(db, id, reset, rows, cursor))
    ensures KeepsIds(db, CommitScan(db, id, reset, rows, cursor))
  {
    hide IdsAscend;
    WithoutSubsequence(db.requests, id, db.lastRowId);
    NumberedAscend(if reset then Without(db.requests, id) else db.requests, id, rows, db.lastRowId);
  }

  lemma ApplyKeepsTables(db: Db, c: Commit)
    requires WellFormed(db)
    ensures WellFormed(Apply(db, c)) && KeepsIds(db, Apply(db, c))
  {
    hide IdsAscend;
    match c
    case Upserted(id, status, mtime, size) =>
    case Scanned(id, reset, rows, cursor) =>
      if id in db.sessions {
        ScanKeepsTables(db, id, reset, rows, cursor);
      }
    case Cleared(id) =>
      WithoutSubsequence(db.requests, id, db.lastRowId);
    case Failed(id, text) =>
    case Removed(id) =>
      WithoutSubsequence(db.requests, id, db.lastRowId);
  }

  lemma {:induction false} ReplayKeepsTables(db: Db, log: seq<Commit>)
    requires WellFormed(db)
    ensures WellFormed(Replay(db, log)) && KeepsIds(db, Replay(db, log))
    decreases |log|
  {
    hide WellFormed, Apply;
    if log != [] {
      ReplayKeepsTables(db, log[..|log| - 1]);
      ApplyKeepsTables(Replay(db, log[..|log| - 1]), log[|log| - 1]);
    }
  }

  // ----- epochs -----

  lemma {:induction false} RequestsOfMembers(requests: seq<Request>, id: string)
    ensures forall r :: r in RequestsOf(requests, id) <==> r in requests && r.session == id
    decreases |requests|
  {
    if requests != [] {
      RequestsOfMembers(requests[..|requests| - 1], id);
      assert requests == requests[..|requests| - 1] + [requests[|requests| - 1]];
    }
  }

  /** As long as a session stays in the table, its epoch never falls, and while it is the same, rows
      are only added behind the earlier ones. */
  ghost predicate EpochGuards(db: Db, db': Db, id: string) {
    && EpochOf(db, id) <= EpochOf(db', id)
    && (EpochOf(db, id) == EpochOf(db', id) ==> RequestsOf(db.requests, id) <= RequestsOf(db'.requests, id))
  }

  lemma ApplyEpoch(db: Db, c: Commit, id: string)
    requires c != Removed(id)
    ensures EpochGuards(db, Apply(db, c), id)
  {
    hide RequestsOf, Numbered;
    match c
    case Upserted(_, _, _, _) =>
    case Scanned(other, reset, rows, cursor) =>
      if other in db.sessions {
        CommitScanRequests(db, other, reset, rows, cursor, id);
      }
    case Cleared(other) =>
      WithoutIsGone(db.requests, other, id);
    case Failed(_, _) =>
    case Removed(other) =>
      WithoutIsGone(db.requests, other, id);
  }

  lemma {:induction false} ReplayEpoch(db: Db, log: seq<Commit>, id: string)
    requires Removed(id) !in log
    ensures EpochGuards(db, Replay(db, log), id)
    decreases |log|
  {
    hide Apply, RequestsOf, EpochOf;
    if log != [] {
      ReplayEpoch(db, log[..|log| - 1], id);
      ApplyEpoch(Replay(db, log[..|log| - 1]), log[|log| - 1], id);
    }
  }

  /** Dropping a row of a session that stays raises its epoch. */
  lemma DroppedRowRaisesEpoch(db: Db, log: seq<Commit>, r: Request)
    requires Removed(r.session) !in log && r in db.requests && r !in Replay(db, log).requests
    ensures EpochOf(db, r.session) < EpochOf(Replay(db, log), r.session)
  {
    hide Replay, RequestsOf, EpochOf;
    var db' := Replay(db, log);
    ReplayEpoch(db, log, r.session);
    RequestsOfMembers(db.requests, r.session);
    RequestsOfMembers(db'.requests, r.session);
  }

  // ----- resets -----

  /** A commit that starts a session's requests anew. */
  predicate IsReset(c: Commit, id: string) {
    c.id == id && ((c.Scanned? && c.reset) || c.Cleared?)
  }

  function Resets(log: seq<Commit>, id: string): nat {
    if log == [] then 0
    else Resets(log[..|log| - 1], id) + (if IsReset(log[|log| - 1], id) then 1 else 0)
  }

  lemma {:induction false} ResetsAppend(a: seq<Commit>, b: seq<Commit>, id: string)
    ensures Resets(a + b, id) == Resets(a, id) + Resets(b, id)
    decreases |b|
  {
    hide IsReset;
    if b == [] {
      assert a + b == a;
    } else {
      ResetsAppend(a, b[..|b| - 1], id);
      assert (a + b)[..|a + b| - 1] == a + b[..|b| - 1];
    }
  }

  lemma ApplyCountsReset(db: Db, c: Commit, id: string)
    requires id in db.sessions && c != Removed(id)
    ensures id in Apply(db, c).sessions
    ensures EpochOf(Apply(db, c), id) == EpochOf(db, id) + (if IsReset(c, id) then 1 else 0)
  {
    hide Without, Numbered;
  }

  /** As long as a session stays in the table, its epoch counts the resets. */
  lemma {:induction false} EpochCountsResets(db: Db, log: seq<Commit>, id: string)
    requires id in db.sessions && Removed(id) !in log
    ensures id in Replay(db, log).sessions
    ensures EpochOf(Replay(db, log), id) == EpochOf(db, id) + Resets(log, id)
    decreases |log|
  {
    hide Apply, EpochOf, IsReset;
    if log != [] {
      EpochCountsResets(db, log[..|log| - 1], id);
      ApplyCountsReset(Replay(db, log[..|log| - 1]), log[|log| - 1], id);
    }
  }

  lemma ApplyWithoutReset(db: Db, c: Commit, id: string)
    requires !IsReset(c, id)
    ensures id in Apply(db, c).epochs ==> id in db.epochs && Apply(db, c).epochs[id] == db.epochs[id]
  {
    hide Without, Numbered;
  }

  /** Without a reset no session, whatever happens to it, comes to have another epoch. */
  lemma {:induction false} NoResetNoEpoch(db: Db, log: seq<Commit>, id: string)
    requires Resets(log, id) == 0
    ensures id in Replay(db, log).epochs ==> id in db.epochs && Replay(db, log).epochs[id] == db.epochs[id]
    decreases |log|
  {
    hide Apply, IsReset;
    if log != [] {
      NoResetNoEpoch(db, log[..|log| - 1], id);
      ApplyWithoutReset(Replay(db, log[..|log| - 1]), log[|log| - 1], id);
    }
  }

  // ----- the revision -----

  /** What the revision digest is computed from, per session. The digest and the quoting of its text
      are taken to be injective, so the revision is represented by these values. */
  datatype Mark = Mark(
    status: string, mtime: int, size: int, indexError: IndexError,
    device: nat, inode: nat, offset: nat, epoch: nat, count: nat)

  function MarkOf(db: Db, id: string): Mark
    requires id in db.sessions
  {
    var s := db.sessions[id];
    var cursor := if id in db.cursors then db.cursors[id] else Cursor(0, 0, 0, 0, 0, [], []);
    Mark(s.status, s.mtime, s.size, s.indexError, cursor.device, cursor.inode, cursor.offset,
         EpochOf(db, id), |RequestsOf(db.requests, id)|)
  }

  function Revision(db: Db): map<string, Mark> {
    map id | id in db.sessions :: MarkOf(db, id)
  }

  /** Equal revisions mean equal rows, for every session that was not removed in between. */
  lemma EqualRevisionEqualRows(db: Db, log: seq<Commit>, id: string)
    requires Removed(id) !in log && id in db.sessions && Revision(db) == Revision(Replay(db, log))
    ensures RequestsOf(Replay(db, log).requests, id) == RequestsOf(db.requests, id)
  {
    hide Replay, RequestsOf, EpochOf;
    ReplayEpoch(db, log, id);
    var db' := Replay(db, log);
    assert id in Revision(db) && id in Revision(db');
    assert MarkOf(db, id) == Revision(db)[id] == Revision(db')[id] == MarkOf(db', id);
  }

  /** And they mean equal session rows: status, fingerprint and error text of every session. */
  lemma EqualRevisionEqualSessions(a: Db, b: Db)
    requires Revision(a) == Revision(b)
    ensures a.sessions == b.sessions
  {
    hide RequestsOf, EpochOf;
    assert a.sessions.Keys == Revision(a).Keys == Revision(b).Keys == b.sessions.Keys;
    forall id | id in a.sessions ensures id in b.sessions && a.sessions[id] == b.sessions[id] {
      assert id in Revision(a) && id in Revision(b);
      assert MarkOf(a, id) == Revision(a)[id] == Revision(b)[id] == MarkOf(b, id);
    }
  }

  /** No row outlives the removal of its session: ids are never given out again. */
  lemma RemovedRowsStayGone(db: Db, log: seq<Commit>, r: Request)
    requires WellFormed(db) && Removed(r.session) in log && r in db.requests
    ensures r !in Replay(db, log).requests
  {
    hide Replay, WellFormed;
    var k :| 0 <= k < |log| && log[k] == Removed(r.session);
    assert log == log[..k + 1] + log[k + 1..] && log[..k + 1] == log[..k] + [log[k]];
    ReplaySplit(db, log[..k + 1], log[k + 1..]);
    ReplaySplit(db, log[..k], [log[k]]);
    var mid := Replay(db, log[..k + 1]);
    assert mid == RemoveSession(Replay(db, log[..k]), r.session) by {
      ReplayOne(Replay(db, log[..k]), log[k]);
    }
    WithoutSubsequence(Replay(db, log[..k]).requests, r.session, 0);
    ReplayKeepsTables(db, log[..k + 1]);
    ReplayKeepsTables(mid, log[k + 1..]);
    IdsAreBounded(db, r);
  }

  lemma ReplayOne(db: Db, c: Commit)
    ensures Replay(db, [c]) == Apply(db, c)
  {
    hide Apply;
    assert Replay(db, []) == db && [c][..0] == [];
  }

  lemma IdsAreBounded(db: Db, r: Request)
    requires WellFormed(db) && r in db.requests
    ensures r.id <= db.lastRowId
  {
  }

  /** With equal revisions, a session's rows are equal if and only if it was not removed in between or had
      none. */
  lemma EqualRevisionEqualRowsIff(db: Db, log: seq<Commit>, id: string)
    requires WellFormed(db) && id in db.sessions && Revision(db) == Revision(Replay(db, log))
    ensures RequestsOf(Replay(db, log).requests, id) == RequestsOf(db.requests, id)
      <==> Removed(id) !in log || RequestsOf(db.requests, id) == []
  {
    hide Replay, RequestsOf, EpochOf, WellFormed;
    var db' := Replay(db, log);
    if Removed(id) !in log {
      EqualRevisionEqualRows(db, log, id);
    } else {
      assert id in Revision(db) && id in Revision(db');
      assert MarkOf(db, id) == Revision(db)[id] == Revision(db')[id] == MarkOf(db', id);
      RequestsOfMembers(db.requests, id);
      RequestsOfMembers(db'.requests, id);
      if RequestsOf(db.requests, id) != [] {
        RemovedRowsStayGone(db, log, RequestsOf(db.requests, id)[0]);
      }
    }
  }

  /** A session that is removed and indexed again can get its old revision back although all its rows
      are new: the epoch starts again at one. */
  lemma RecreatedSessionGoesUnseen(id: string, status: string, mtime: int, size: int, row: Row, cursor: Cursor)
    ensures
      var born := [Upserted(id, status, mtime, size), Scanned(id, true, [row], cursor)];
      var before := Replay(Db(map[], [], map[], map[], 0), born);
      var after := Replay(Replay(before, [Removed(id)]), born);
      Revision(before) == Revision(after)
      && RequestsOf(before.requests, id) == [Request(1, id, row)]
      && RequestsOf(after.requests, id) == [Request(2, id, row)]
  {
    hide Replay, RequestsOf;
    var empty := Db(map[], [], map[], map[], 0);
    var before := BornAgain(empty, id, status, mtime, size, row, cursor);
    ReplayOne(before, Removed(id));
    var gone := Db(map[], [], map[], map[], 1);
    assert RemoveSession(before, id) == gone by {
      assert Without([Request(1, id, row)], id) == [];
    }
    var after := BornAgain(gone, id, status, mtime, size, row, cursor);
    assert MarkOf(before, id) == MarkOf(after, id);
  }

  lemma ReplayTwo(db: Db, a: Commit, b: Commit)
    ensures Replay(db, [a, b]) == Apply(Apply(db, a), b)
  {
    hide Apply;
    ReplayOne(db, a);
    assert [a, b][..1] == [a];
  }

  lemma BornAgain(db: Db, id: string, status: string, mtime: int, size: int, row: Row, cursor: Cursor) returns (db': Db)
    requires db == Db(map[], [], map[], map[], db.lastRowId)
    ensures db' == Replay(db, [Upserted(id, status, mtime, size), Scanned(id, true, [row], cursor)])
    ensures db' == Db(
      map[id := Session(status, mtime, size, ErrorFor(cursor.skipped))], [Request(db.lastRowId + 1, id, row)],
      map[id := cursor], map[id := 1], db.lastRowId + 1)
    ensures RequestsOf(db'.requests, id) == db'.requests
  {
    hide Replay;
    ReplayTwo(db, Upserted(id, status, mtime, size), Scanned(id, true, [row], cursor));
    db' := CommitScan(Upsert(db, id, status, mtime, size), id, true, [row], cursor);
    assert Numbered(id, [row], db.lastRowId) == [Request(db.lastRowId + 1, id, row)];
  }

  // ----- reading the requests table -----

  /** SELECT ... WHERE id > after ORDER BY id; the table is kept in id order. */
  function RowsAfter(requests: seq<Request>, after: nat): seq<Request> {
    if requests == [] then []
    else
      var front, last := RowsAfter(requests[..|requests| - 1], after), requests[|requests| - 1];
      if last.id > after then front + [last] else front
  }

  function Batch(requests: seq<Request>, after: nat, limit: nat): seq<Request> {
    var rows := RowsAfter(requests, after);
    if |rows| <= limit then rows else rows[..limit]
  }

  /** SELECT MAX(id), which is 0 on an empty table. */
  function MaxId(requests: seq<Request>): nat {
    if requests == [] then 0
    else
      var front, last := MaxId(requests[..|requests| - 1]), requests[|requests| - 1];
      if last.id > front then last.id else front
  }

  lemma {:induction false} MaxIdIsThere(requests: seq<Request>)
    ensures MaxId(requests) == 0 || exists r :: r in requests && r.id == MaxId(requests)
    decreases |requests|
  {
    if requests != [] {
      MaxIdIsThere(requests[..|requests| - 1]);
      assert requests == requests[..|requests| - 1] + [requests[|requests| - 1]];
    }
  }

  lemma MaxIdOne(requests: seq<Request>)
    requires requests != []
    ensures
      var front, last := MaxId(requests[..|requests| - 1]), requests[|requests| - 1].id;
      MaxId(requests) == if last > front then last else front
  {
  }

  lemma {:induction false} MaxIdBounds(requests: seq<Request>, last: nat)
    requires IdsAscend(requests, last)
    ensures MaxId(requests) <= last
    ensures forall r | r in requests :: r.id <= MaxId(requests)
    decreases |requests|
  {
    if requests != [] {
      hide MaxId, IdsAscend;
      var front, r := requests[..|requests| - 1], requests[|requests| - 1];
      AscendFront(requests, last);
      MaxIdOne(requests);
      MaxIdBounds(front, r.id - 1);
      assert requests == front + [r];
    }
  }

  lemma {:induction false} RowsAfterFacts(requests: seq<Request>, after: nat, last: nat)
    requires IdsAscend(requests, last)
    ensures forall r :: r in RowsAfter(requests, after) <==> r in requests && r.id > after
    ensures IdsAscend(RowsAfter(requests, after), last)
    decreases |requests|
  {
    if requests != [] {
      hide IdsAscend;
      var front, r := requests[..|requests| - 1], requests[|requests| - 1];
      assert requests == front + [r];
      AscendFront(requests, last);
      RowsAfterFacts(front, after, r.id - 1);
      AscendOneMore(RowsAfter(front, after), r, last);
    }
  }

  lemma PrefixIsStretch(all: seq<Request>, k: nat, last: nat)
    requires IdsAscend(all, last) && 0 < k <= |all|
    ensures IdsAscend(all[..k], last) && all[k - 1] in all && all[..k][k - 1] == all[k - 1]
    ensures forall r :: r in all[..k] <==> r in all && r.id <= all[k - 1].id
  {
    forall r | r in all && r.id <= all[k - 1].id ensures r in all[..k] {
      var j :| 0 <= j < |all| && all[j] == r;
      assert all[..k][j] == r;
    }
  }

  /** A batch is exactly the stretch of ids up to its last one. */
  lemma BatchIsStretch(requests: seq<Request>, after: nat, limit: nat, last: nat)
    requires IdsAscend(requests, last) && limit > 0
    ensures
      var items := Batch(requests, after, limit);
      && IdsAscend(items, last)
      && (items == [] ==> forall r | r in requests :: r.id <= after)
      && (items != [] ==>
            && items[|items| - 1].id > after
            && forall r :: r in items <==> r in requests && after < r.id <= items[|items| - 1].id)
  {
    hide RowsAfter, IdsAscend;
    RowsAfterFacts(requests, after, last);
    var all := RowsAfter(requests, after);
    if all != [] {
      PrefixIsStretch(all, if |all| <= limit then |all| else limit, last);
      assert all[..|all|] == all;
    } else {
      assert forall r | r in requests && r.id > after :: r in all;
    }
  }

  // ----- one connection -----

  datatype Event =
    | Refresh(reason: string)
    | Reset(sessions: set<string>)
    | Requests(items: seq<Request>)
    | Heartbeat

  function IdsOf(items: seq<Request>): seq<nat> {
    seq(|items|, i requires 0 <= i < |items| => items[i].id)
  }

  /** Every id that was sent, in order. */
  function Sent(events: seq<Event>): seq<nat> {
    if events == [] then []
    else
      var front, last := Sent(events[..|events| - 1]), events[|events| - 1];
      if last.Requests? then front + IdsOf(last.items) else front
  }

  ghost function SentSet(events: seq<Event>): set<nat> {
    set id | id in Sent(events)
  }

  predicate Distinct(ids: seq<nat>) {
    forall i, j :: 0 <= i < j < |ids| ==> ids[i] != ids[j]
  }

  /** The rows in the table are divided by `lastId`: those up to it are known to the client (sent, or
      there when it connected), those above are not. */
  ghost predicate Tracks(lastId: nat, known: set<nat>, db: Db) {
    && lastId <= db.lastRowId
    && (forall id | id in known :: id <= db.lastRowId)
    && (forall r | r in db.requests :: r.id in known <==> r.id <= lastId)
  }

  /** The rows that were there at `before` and still are lie at or below `lastId`. */
  ghost predicate Covers(lastId: nat, before: Db, db: Db) {
    forall r | r in before.requests && r in db.requests :: r.id <= lastId
  }

  lemma TracksStable(lastId: nat, known: set<nat>, db: Db, db': Db)
    requires WellFormed(db) && KeepsIds(db, db') && WellFormed(db')
    requires Tracks(lastId, known, db)
    ensures Tracks(lastId, known, db')
  {
  }

  lemma CoversStable(lastId: nat, before: Db, db: Db, db': Db)
    requires WellFormed(before) && KeepsIds(before, db) && KeepsIds(db, db')
    requires Covers(lastId, before, db)
    ensures Covers(lastId, before, db')
  {
    forall r | r in before.requests && r in db'.requests ensures r.id <= lastId {
      assert r.id <= before.lastRowId;
    }
  }

  /** Sending a batch moves the dividing line to its last id and repeats nothing. */
  lemma SendTracks(lastId: nat, known: set<nat>, db: Db, limit: nat, sent: seq<nat>)
    requires WellFormed(db) && limit > 0 && Tracks(lastId, known, db)
    requires Distinct(sent) && forall id | id in sent :: id in known
    requires Batch(db.requests, lastId, limit) != []
    ensures
      var items := Batch(db.requests, lastId, limit);
      var ids := set r | r in items :: r.id;
      && lastId < items[|items| - 1].id
      && Tracks(items[|items| - 1].id, known + ids, db)
      && ids !! known
      && Distinct(sent + IdsOf(items))
  {
    BatchIsStretch(db.requests, lastId, limit, db.lastRowId);
    hide Batch;
    var items := Batch(db.requests, lastId, limit);
    var ids := set r | r in items :: r.id;
    forall r | r in db.requests
      ensures r.id in known + ids <==> r.id <= items[|items| - 1].id
    {
      if r.id in ids {
        var o :| o in items && o.id == r.id;
      }
      if lastId < r.id <= items[|items| - 1].id {
        assert r in items;
      }
    }
    DistinctMore(sent, items);
  }

  lemma DistinctMore(sent: seq<nat>, items: seq<Request>)
    requires Distinct(sent) && (forall r | r in items :: r.id !in sent)
    requires forall i, j :: 0 <= i < j < |items| ==> items[i].id < items[j].id
    ensures Distinct(sent + IdsOf(items))
  {
    var all := sent + IdsOf(items);
    forall i, j | 0 <= i < j < |all| ensures all[i] != all[j] {
      if i < |sent| && j >= |sent| {
        assert items[j - |sent|] in items && all[i] in sent;
      }
    }
  }
}
