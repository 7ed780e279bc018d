/** The index tables as one value, and the transactions that change them
    (cli/web_index.go:199-258, cli/web_incremental.go:97-181). */
module TrafficDatabase {
  import opened Bytes
  import opened TrafficLines

  datatype IndexError = Clean | SkippedLines(count: nat) | Message(text: string)

  datatype Session = Session(status: string, mtime: int, size: int, indexError: IndexError)

  /** `head` and `tail` are the two file windows whose digests are stored. SHA-256 is taken to be
      injective, so a digest is represented by the bytes it was computed from. */
  datatype Cursor = Cursor(
    device: nat, inode: nat, offset: nat, lineNumber: nat, skipped: nat, head: seq<Byte>, tail: seq<Byte>)

  datatype Request = Request(id: nat, session: string, row: Row)

  /** `lastRowId` is the AUTOINCREMENT sequence: the largest id ever given out. */
  datatype Db = Db(
    sessions: map<string, Session>, requests: seq<Request>, cursors: map<string, Cursor>,
    epochs: map<string, nat>, lastRowId: nat)

  const WINDOW: nat := 4096

  function HeadWindow(file: seq<Byte>, n: nat): seq<Byte>
    requires n <= |file|
  {
    file[..if n < WINDOW then n else WINDOW]
  }

  function TailWindow(file: seq<Byte>, n: nat): seq<Byte>
    requires n <= |file|
  {
    file[if n < WINDOW then 0 else n - WINDOW..n]
  }

  // ----- queries -----

  /** The requests of one session, in id order. */
  function RequestsOf(requests: seq<Request>, id: string): seq<Request> {
    if requests == [] then []
    else
      var front, last := RequestsOf(requests[..|requests| - 1], id), requests[|requests| - 1];
      if last.session == id then front + [last] else front
  }

  function Without(requests: seq<Request>, id: string): seq<Request> {
    if requests == [] then []
    else
      var front, last := Without(requests[..|requests| - 1], id), requests[|requests| - 1];
      if last.session == id then front else front + [last]
  }

  function Bare(requests: seq<Request>): seq<Row> {
    seq(|requests|, i requires 0 <= i < |requests| => requests[i].row)
  }

  /** The rows of a session without their ids. */
  function RowsOf(requests: seq<Request>, id: string): seq<Row> {
    Bare(RequestsOf(requests, id))
  }

  function EpochOf(db: Db, id: string): nat {
    if id in db.epochs then db.epochs[id] else 0
  }

  // ----- statements -----

  /** Rows as they are stored: with the next ids, in order. */
  function Numbered(id: string, rows: seq<Row>, lastRowId: nat): seq<Request> {
    seq(|rows|, i requires 0 <= i < |rows| => Request(lastRowId + 1 + i, id, rows[i]))
  }

  function InsertAll(db: Db, id: string, rows: seq<Row>): Db {
    db.(requests := db.requests + Numbered(id, rows, db.lastRowId), lastRowId := db.lastRowId + |rows|)
  }

  function ResetSession(db: Db, id: string): Db {
    db.(requests := Without(db.requests, id), epochs := db.epochs[id := EpochOf(db, id) + 1])
  }

  function SetError(db: Db, id: string, error: IndexError): Db {
    if id in db.sessions then db.(sessions := db.sessions[id := db.sessions[id].(indexError := error)]) else db
  }

  function ErrorFor(skipped: nat): IndexError {
    if skipped > 0 then SkippedLines(skipped) else Clean
  }

  // ----- transactions -----

  /** A committed scan: an optional reset, the new rows, the new cursor and the session's error text. */
  function CommitScan(db: Db, id: string, reset: bool, rows: seq<Row>, cursor: Cursor): Db {
    var cleared := if reset then ResetSession(db, id) else db;
    var filled := SetError(InsertAll(cleared, id, rows), id, ErrorFor(cursor.skipped));
    filled.(cursors := filled.cursors[id := cursor])
  }

  /** The scan of a session whose traffic file is gone. */
  function CommitCleared(db: Db, id: string): Db {
    var cleared := SetError(ResetSession(db, id), id, Clean);
    cleared.(cursors := cleared.cursors - {id})
  }

  function Upsert(db: Db, id: string, status: string, mtime: int, size: int): Db {
    var error := if id in db.sessions then db.sessions[id].indexError else Clean;
    db.(sessions := db.sessions[id := Session(status, mtime, size, error)])
  }

  function MarkFailed(db: Db, id: string, text: string): Db {
    if id in db.sessions
    then db.(sessions := db.sessions[id := db.sessions[id].(mtime := -1, size := -1, indexError := Message(text))])
    else db
  }

  /** Deleting a session takes its requests, cursor and epoch with it; the id sequence stays. */
  function RemoveSession(db: Db, id: string): Db {
    db.(sessions := db.sessions - {id}, requests := Without(db.requests, id),
        cursors := db.cursors - {id}, epochs := db.epochs - {id})
  }

  // ----- how the queries see the statements -----

  lemma AppendOne(requests: seq<Request>, r: Request, id: string)
    ensures RequestsOf(requests + [r], id)
      == if r.session == id then RequestsOf(requests, id) + [r] else RequestsOf(requests, id)
  {
    assert (requests + [r])[..|requests|] == requests;
  }

  lemma NoRequests(id: string)
    ensures RequestsOf([], id) == []
  {
  }

  lemma LastOfThree(a: seq<Request>, b: seq<Request>, last: Request)
    ensures a + (b + [last]) == (a + b) + [last]
  {
  }

  lemma {:induction false} RequestsOfAppend(a: seq<Request>, b: seq<Request>, id: string)
    ensures RequestsOf(a + b, id) == RequestsOf(a, id) + RequestsOf(b, id)
    decreases |b|
  {
    hide RequestsOf;
    if b == [] {
      NoRequests(id);
      assert a + b == a && RequestsOf(a, id) + [] == RequestsOf(a, id);
    } else {
      var front, last := b[..|b| - 1], b[|b| - 1];
      assert b == front + [last];
      RequestsOfAppend(a, front, id);
      AppendOne(a + front, last, id);
      AppendOne(front, last, id);
      LastOfThree(a, front, last);
      LastOfThree(RequestsOf(a, id), RequestsOf(front, id), last);
    }
  }

  lemma NumberedSnoc(id: string, rows: seq<Row>, lastRowId: nat)
    requires rows != []
    ensures
      var front, n := rows[..|rows| - 1], |rows|;
      Numbered(id, rows, lastRowId) == Numbered(id, front, lastRowId) + [Request(lastRowId + n, id, rows[n - 1])]
  {
  }

  lemma {:induction false} RequestsOfNumbered(id: string, rows: seq<Row>, lastRowId: nat, other: string)
    ensures
      RequestsOf(Numbered(id, rows, lastRowId), other) == if other == id then Numbered(id, rows, lastRowId) else []
    decreases |rows|
  {
    if rows == [] {
      assert Numbered(id, rows, lastRowId) == [];
      NoRequests(other);
    } else {
      hide RequestsOf, Numbered;
      var front := rows[..|rows| - 1];
      RequestsOfNumbered(id, front, lastRowId, other);
      NumberedSnoc(id, rows, lastRowId);
      AppendOne(Numbered(id, front, lastRowId), Request(lastRowId + |rows|, id, rows[|rows| - 1]), other);
    }
  }

  lemma {:induction false} WithoutIsGone(requests: seq<Request>, id: string, other: string)
    ensures RequestsOf(Without(requests, id), other) == if other == id then [] else RequestsOf(requests, other)
    decreases |requests|
  {
    if requests != [] {
      var front, last := requests[..|requests| - 1], requests[|requests| - 1];
      WithoutIsGone(front, id, other);
      if last.session != id {
        AppendOne(Without(front, id), last, other);
      }
    }
  }

  /** What a committed scan leaves in the tables, for its own session and for every other one. */
  lemma CommitScanRequests(db: Db, id: string, reset: bool, rows: seq<Row>, cursor: Cursor, other: string)
    ensures
      var db' := CommitScan(db, id, reset, rows, cursor);
      && db'.cursors == db.cursors[id := cursor]
      && RequestsOf(db'.requests, other) ==
        if other != id then RequestsOf(db.requests, other)
        else (if reset then [] else RequestsOf(db.requests, id)) + Numbered(id, rows, db.lastRowId)
  {
    var kept := if reset then Without(db.requests, id) else db.requests;
    WithoutIsGone(db.requests, id, other);
    RequestsOfNumbered(id, rows, db.lastRowId, other);
    RequestsOfAppend(kept, Numbered(id, rows, db.lastRowId), other);
    hide RequestsOf, Numbered, Without;
    assert RequestsOf(kept, other) + [] == RequestsOf(kept, other);
  }

  lemma BareAppend(kept: seq<Request>, id: string, rows: seq<Row>, lastRowId: nat)
    ensures Bare(kept + Numbered(id, rows, lastRowId)) == Bare(kept) + rows
  {
  }

  lemma CommitScanRows(db: Db, id: string, reset: bool, rows: seq<Row>, cursor: Cursor)
    ensures
      RowsOf(CommitScan(db, id, reset, rows, cursor).requests, id)
      == (if reset then [] else RowsOf(db.requests, id)) + rows
  {
    hide CommitScan, RequestsOf, Numbered;
    CommitScanRequests(db, id, reset, rows, cursor, id);
    BareAppend(if reset then [] else RequestsOf(db.requests, id), id, rows, db.lastRowId);
  }
}
