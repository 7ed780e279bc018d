/** The ZIP export of whole request lists (cli/web_export.go:98-155, 250-333). */
module BatchExport {
  import opened Captures
  import BodyCapture
  import Sql
  import opened RequestQuery
  import opened Texts
  import opened RequestPages

  /** What happens to one request id: its record is read back and written, or it cannot be read (or
      encoded), or writing the archive breaks off (also when the client goes away). */
  datatype Reading = Record(transaction: Transaction) | Unreadable | WriteBreaks

  type Store = (string, int) -> Reading

  datatype ManifestStatus = Complete | Partial | Failed

  /** The part of the manifest and of the file entry that the loops update. `visited` lists the ids in
      the order they were tried. */
  datatype Progress = Progress(
    visited: seq<int>, exported: nat, skipped: nat, clean: bool, broken: bool)

  predicate BadTime(t: Transaction) {
    t.timestampMillis <= 0 || t.durationMillis < 0
  }

  predicate Flawed(t: Transaction) {
    BadTime(t) || BodyCapture.Incomplete(t.requestBody) || BodyCapture.Incomplete(t.responseBody)
  }

  /** writeOne, with the early return of its callers: after a broken write nothing more happens. */
  function WriteOne(p: Progress, store: Store, session: string, id: int): Progress {
    if p.broken then p
    else
      match store(session, id)
      case WriteBreaks => p.(broken := true)
      case Unreadable => p.(visited := p.visited + [id], skipped := p.skipped + 1)
      case Record(t) => p.(visited := p.visited + [id], exported := p.exported + 1, clean := p.clean && !Flawed(t))
  }

  function WriteAll(p: Progress, store: Store, session: string, ids: seq<int>): Progress {
    if ids == [] then p else WriteOne(WriteAll(p, store, session, ids[..|ids| - 1]), store, session, ids[|ids| - 1])
  }

  lemma {:induction false} WriteAllAppend(p: Progress, store: Store, session: string, a: seq<int>, b: seq<int>)
    ensures WriteAll(p, store, session, a + b) == WriteAll(WriteAll(p, store, session, a), store, session, b)
    decreases |b|
  {
    hide WriteOne;
    if b == [] {
      assert a + b == a;
    } else {
      WriteAllAppend(p, store, session, a, b[..|b| - 1]);
      assert (a + b)[..|a + b| - 1] == a + b[..|b| - 1];
    }
  }

  function IdsOf(rows: seq<Sql.Row>): seq<int> {
    seq(|rows|, i requires 0 <= i < |rows| => rows[i].id)
  }

  /** The page size that a page loop asks for. */
  const PAGE: nat := 500

  function CeilPages(total: nat): nat {
    if total == 0 then 1 else (total + PAGE - 1) / PAGE
  }

  lemma {:induction false} BrokenStays(p: Progress, store: Store, session: string, ids: seq<int>)
    requires p.broken
    ensures WriteAll(p, store, session, ids) == p
    decreases |ids|
  {
    if ids != [] {
      BrokenStays(p, store, session, ids[..|ids| - 1]);
    }
  }

  /** The inner loop: it stops at a broken write, which comes to the same as going on with one. */
  method ExportBatch(start: Progress, store: Store, session: string, batch: seq<Sql.Row>) returns (p: Progress)
    ensures p == WriteAll(start, store, session, IdsOf(batch))
  {
    p := start;
    for i := 0 to |batch|
      invariant p == WriteAll(start, store, session, IdsOf(batch)[..i])
    {
      assert IdsOf(batch)[..i + 1][..i] == IdsOf(batch)[..i];
      p := WriteOne(p, store, session, batch[i].id);
      if p.broken {
        WriteAllAppend(start, store, session, IdsOf(batch)[..i + 1], IdsOf(batch)[i + 1..]);
        assert IdsOf(batch) == IdsOf(batch)[..i + 1] + IdsOf(batch)[i + 1..];
        BrokenStays(p, store, session, IdsOf(batch)[i + 1..]);
        return;
      }
    }
    assert IdsOf(batch)[..|batch|] == IdsOf(batch);
  }

  function Least(a: nat, b: nat): nat {
    if a < b then a else b
  }

  /** One page more, written after the earlier ones. */
  lemma PageWritten(start: Progress, store: Store, session: string, list: seq<Sql.Row>, pages: nat, p: Progress)
    requires p == WriteAll(start, store, session, IdsOf(list)[..Least(pages * PAGE, |list|)])
    ensures WriteAll(p, store, session, IdsOf(Slice(list, PAGE, pages * PAGE)))
      == WriteAll(start, store, session, IdsOf(list)[..Least((pages + 1) * PAGE, |list|)])
  {
    hide WriteAll;
    var a, b := Least(pages * PAGE, |list|), Least((pages + 1) * PAGE, |list|);
    WriteAllAppend(start, store, session, IdsOf(list)[..a], IdsOf(list)[a..b]);
    assert IdsOf(list)[..a] + IdsOf(list)[a..b] == IdsOf(list)[..b];
    assert IdsOf(Slice(list, PAGE, pages * PAGE)) == IdsOf(list)[a..b];
  }

  /** Once everything is written or a write broke, the rest makes no difference. */
  lemma RestDoesNotMatter(start: Progress, store: Store, session: string, ids: seq<int>, n: nat, p: Progress)
    requires n <= |ids| && p == WriteAll(start, store, session, ids[..n])
    requires n == |ids| || p.broken
    ensures p == WriteAll(start, store, session, ids)
  {
    hide WriteAll;
    assert ids == ids[..n] + ids[n..];
    if p.broken {
      WriteAllAppend(start, store, session, ids[..n], ids[n..]);
      BrokenStays(p, store, session, ids[n..]);
    } else {
      assert ids[..n] == ids;
    }
  }

  function Asked(filter: Filter, page: nat): Filter {
    filter.(pageSize := PAGE, page := page)
  }

  /** What one listRequests call of the loop returns. */
  lemma AskedPage(filter: Filter, page: nat, table: seq<Sql.Row>, search: Sql.Search)
    requires IsValid(filter) && UniqueIds(table) && page > 0
    ensures IsValid(Asked(filter, page))
    ensures
      var query := Compile(Asked(filter, page));
      var list := Listing(filter, table, search);
      && RunPage(query.pageTokens, query.pageArgs, table, search) == Slice(list, PAGE, (page - 1) * PAGE)
      && Total(query.countTokens, query.countArgs, table, search) == |list|
  {
    var asked := Asked(filter, page);
    assert PageOffset(asked) == (page - 1) * PAGE && EffectivePageSize(asked) == PAGE;
    hide IsValid, Compile, RunPage, Total, Listing, UniqueIds, Slice, PageOffset, EffectivePageSize;
    ListingIgnoresPages(filter, asked, table, search);
    PageIsSlice(asked, table, search);
    CountIsLength(asked, table, search);
  }

  /** The loop over pages. The table does not change meanwhile: the export holds the index's read lock.
      Every listed request is tried exactly once, in list order. */
  method ExportPages(filter: Filter, table: seq<Sql.Row>, search: Sql.Search, store: Store, start: Progress)
    returns (p: Progress, pages: nat, rejected: bool)
    requires UniqueIds(table)
    ensures rejected <==> !IsValid(filter)
    ensures rejected ==> p == start
    ensures !rejected ==> p == WriteAll(start, store, filter.sessionId, IdsOf(Listing(filter, table, search)))
    ensures !rejected && !p.broken ==> pages == CeilPages(|Listing(filter, table, search)|)
  {
    hide IsValid, Listing, RunPage, Total, Compile, UniqueIds, WriteAll, Slice;
    p, pages, rejected := start, 0, false;
    ghost var list := Listing(filter, table, search);
    ghost var ids := IdsOf(list);
    assert ids[..0] == [];
    NothingWritten(start, store, filter.sessionId);
    ListingIgnoresPages(filter, Asked(filter, 1), table, search);
    while true
      invariant p == WriteAll(start, store, filter.sessionId, ids[..Least(pages * PAGE, |list|)])
      invariant pages > 0 ==> IsValid(filter) && pages * PAGE < |list| && !p.broken
      invariant pages == 0 ==> p == start
      decreases |list| - pages * PAGE
    {
      var page := pages + 1;
      var query := ListRequestsSql(Asked(filter, page));
      ListingIgnoresPages(filter, Asked(filter, page), table, search);
      RejectedIff(Asked(filter, page));
      if query.Rejected? {
        return start, pages, true;
      }
      AskedPage(filter, page, table, search);
      var batch := RunPage(query.pageTokens, query.pageArgs, table, search);
      var total := Total(query.countTokens, query.countArgs, table, search);
      PageWritten(start, store, filter.sessionId, list, pages, p);
      p := ExportBatch(p, store, filter.sessionId, batch);
      pages := page;
      if p.broken || page * PAGE >= total {
        RestDoesNotMatter(start, store, filter.sessionId, ids, Least(page * PAGE, |list|), p);
        return;
      }
    }
  }

  lemma RejectedIff(f: Filter)
    ensures Compile(f).Rejected? <==> !IsValid(f)
  {
    hide IsValid;
  }

  lemma NothingWritten(start: Progress, store: Store, session: string)
    ensures WriteAll(start, store, session, []) == start
  {
  }

  // ----- what the manifest says -----

  predicate Fine(reading: Reading) {
    reading.Record? && !Flawed(reading.transaction)
  }

  /** Unless a write broke, every id was tried once and in order, each is either exported or counted as
      skipped, and the progress is clean and without skips exactly when every record is fine. */
  lemma {:induction false} EveryIdOnce(p: Progress, store: Store, session: string, ids: seq<int>)
    requires !WriteAll(p, store, session, ids).broken
    ensures
      var q := WriteAll(p, store, session, ids);
      && q.visited == p.visited + ids
      && q.exported + q.skipped == p.exported + p.skipped + |ids|
      && q.skipped >= p.skipped
      && ((q.clean && q.skipped == p.skipped) <==> p.clean && forall id | id in ids :: Fine(store(session, id)))
    decreases |ids|
  {
    if ids == [] {
      assert p.visited + ids == p.visited;
    } else {
      var front, last := ids[..|ids| - 1], ids[|ids| - 1];
      hide Flawed;
      EveryIdOnce(p, store, session, front);
      assert ids == front + [last];
      assert p.visited + front + [last] == p.visited + ids;
    }
  }

  datatype Scope = AllRequests | FilteredRequests | SelectedRequests

  datatype ExportSpec = ExportSpec(scope: Scope, requestFilter: Filter, sessionIds: seq<string>)

  /** One session of the export: whether its archive entry can be created, whether it carries an index
      error and how many lines that error says were skipped, and the request ids picked by hand. */
  datatype Job = Job(session: string, created: bool, indexError: bool, skippedLines: nat, picked: seq<int>)

  datatype Manifest = Manifest(status: ManifestStatus, exported: nat, skipped: nat, files: nat)

  /** The filter with nothing but a session in it, in ascending order. */
  function WholeSession(session: string): Filter {
    Filter(session, "", "", "", "", "", [], 0, 0, 0, 0, 0, 0, true, 0, PAGE)
  }

  predicate PickedByHand(spec: ExportSpec, job: Job) {
    spec.scope == SelectedRequests && job.session !in spec.sessionIds
  }

  function JobFilter(spec: ExportSpec, job: Job): Filter {
    if spec.scope == FilteredRequests then spec.requestFilter.(sessionId := job.session, pageSize := PAGE)
    else WholeSession(job.session)
  }

  /** The request ids that a session's export has to try, in order; None when its filter is refused. */
  function Wanted(spec: ExportSpec, job: Job, table: seq<Sql.Row>, search: Sql.Search): Option<seq<int>> {
    if PickedByHand(spec, job) then Some(job.picked)
    else if IsValid(JobFilter(spec, job)) then Some(IdsOf(Listing(JobFilter(spec, job), table, search)))
    else None
  }

  function FirstProgress(job: Job): Progress {
    Progress([], 0, if job.indexError then job.skippedLines else 0, true, false)
  }

  function LastProgress(job: Job, wanted: Option<seq<int>>, store: Store): Progress {
    if wanted == None then FirstProgress(job) else WriteAll(FirstProgress(job), store, job.session, wanted.value)
  }

  /** The effect of one session on the manifest, and its file entry unless it ended in an error. */
  function SessionOutcome(m: Manifest, job: Job, wanted: Option<seq<int>>, store: Store): (Manifest, Option<Progress>) {
    var end := LastProgress(job, wanted, store);
    if !job.created then (m, None)
    else
      (if job.indexError || !end.clean then m.(status := Partial) else m,
       if wanted == None || end.broken then None else Some(end))
  }

  method ExportWebSession(m: Manifest, spec: ExportSpec, job: Job, table: seq<Sql.Row>, search: Sql.Search,
    store: Store)
    returns (m': Manifest, file: Option<Progress>)
    requires UniqueIds(table)
    ensures (m', file) == SessionOutcome(m, job, Wanted(spec, job, table, search), store)
  {
    hide UniqueIds, Listing, IsValid, WriteAll, Flawed;
    m' := m;
    if !job.created {
      return m', None;
    }
    var result := Progress([], 0, 0, true, false);
    if job.indexError {
      m' := m'.(status := Partial);
      result := result.(skipped := job.skippedLines);
    }
    assert result == FirstProgress(job);
    if PickedByHand(spec, job) {
      result := ExportPicked(result, store, job.session, job.picked);
    } else {
      var pages, rejected;
      result, pages, rejected := ExportPages(JobFilter(spec, job), table, search, store, result);
      if rejected {
        return m', None;
      }
    }
    if !result.clean {
      m' := m'.(status := Partial);
    }
    file := if result.broken then None else Some(result);
  }

  method ExportPicked(start: Progress, store: Store, session: string, ids: seq<int>) returns (p: Progress)
    ensures p == WriteAll(start, store, session, ids)
  {
    p := start;
    for i := 0 to |ids|
      invariant p == WriteAll(start, store, session, ids[..i])
    {
      assert ids[..i + 1][..i] == ids[..i];
      p := WriteOne(p, store, session, ids[i]);
      if p.broken {
        WriteAllAppend(start, store, session, ids[..i + 1], ids[i + 1..]);
        assert ids == ids[..i + 1] + ids[i + 1..];
        BrokenStays(p, store, session, ids[i + 1..]);
        return;
      }
    }
    assert ids[..|ids|] == ids;
  }

  function WithFile(m: Manifest, end: Progress): Manifest {
    m.(exported := m.exported + end.exported, skipped := m.skipped + end.skipped, files := m.files + 1)
  }

  /** The sessions one after the other, up to the first error. */
  function AllOutcomes(
    m: Manifest, spec: ExportSpec, jobs: seq<Job>, table: seq<Sql.Row>, search: Sql.Search, store: Store): Manifest
    decreases |jobs|
  {
    if jobs == [] then m
    else
      var (m', file) := SessionOutcome(m, jobs[0], Wanted(spec, jobs[0], table, search), store);
      match file
      case None => m'.(status := Failed)
      case Some(end) => AllOutcomes(WithFile(m', end), spec, jobs[1..], table, search, store)
  }

  function FinishedStatus(m: Manifest): ManifestStatus {
    if m.skipped > 0 && m.status == Complete then Partial else m.status
  }

  const EMPTY_MANIFEST := Manifest(Complete, 0, 0, 0)

  method HandleBatchExport(
    spec: ExportSpec, jobs: seq<Job>, table: seq<Sql.Row>, search: Sql.Search, store: Store)
    returns (m: Manifest)
    requires UniqueIds(table)
    ensures
      var all := AllOutcomes(EMPTY_MANIFEST, spec, jobs, table, search, store);
      m == all.(status := FinishedStatus(all))
  {
    hide SessionOutcome, Wanted, UniqueIds;
    m := EMPTY_MANIFEST;
    var i := 0;
    assert jobs[0..] == jobs;
    while i < |jobs|
      invariant 0 <= i <= |jobs|
      invariant AllOutcomes(EMPTY_MANIFEST, spec, jobs, table, search, store)
        == AllOutcomes(m, spec, jobs[i..], table, search, store)
    {
      assert jobs[i..][1..] == jobs[i + 1..];
      var file;
      m, file := ExportWebSession(m, spec, jobs[i], table, search, store);
      if file == None {
        m := m.(status := FinishedStatus(m.(status := Failed)));
        return;
      }
      m := WithFile(m, file.value);
      i := i + 1;
    }
    m := m.(status := FinishedStatus(m));
  }

  // ----- what a complete manifest means -----

  /** A session that leaves nothing to report. */
  predicate Honest(job: Job, wanted: Option<seq<int>>, store: Store) {
    && job.created && !job.indexError && wanted.Some?
    && forall id | id in wanted.value :: Fine(store(job.session, id))
  }

  lemma {:induction false} FineNeverBreaks(p: Progress, store: Store, session: string, ids: seq<int>)
    ensures (forall id | id in ids :: Fine(store(session, id))) && !p.broken
      ==> !WriteAll(p, store, session, ids).broken
    decreases |ids|
  {
    if ids != [] {
      hide Flawed;
      assert ids[|ids| - 1] in ids;
      FineNeverBreaks(p, store, session, ids[..|ids| - 1]);
    }
  }

  lemma SessionStatus(m: Manifest, job: Job, wanted: Option<seq<int>>, store: Store)
    ensures
      var (m', file) := SessionOutcome(m, job, wanted, store);
      && (m'.status == Complete && file.Some? && file.value.skipped == 0
         <==> m.status == Complete && Honest(job, wanted, store))
      && (m.status != Complete ==> m'.status != Complete)
      && m'.skipped == m.skipped
  {
    if wanted.Some? {
      var start := FirstProgress(job);
      FineNeverBreaks(start, store, job.session, wanted.value);
      if !WriteAll(start, store, job.session, wanted.value).broken {
        EveryIdOnce(start, store, job.session, wanted.value);
      }
    }
    hide WriteAll, Fine;
  }

  /** The manifest says `complete` exactly when no session had an index error or failed, and every
      request was readable, properly timed and captured in full. */
  lemma {:induction false} CompleteIffHonest(
    m: Manifest, spec: ExportSpec, jobs: seq<Job>, table: seq<Sql.Row>, search: Sql.Search, store: Store)
    ensures FinishedStatus(AllOutcomes(m, spec, jobs, table, search, store)) == Complete
      <==> (m.status == Complete && m.skipped == 0
            && forall job | job in jobs :: Honest(job, Wanted(spec, job, table, search), store))
    decreases |jobs|
  {
    hide SessionOutcome, Honest, Wanted;
    if jobs != [] {
      var wanted := Wanted(spec, jobs[0], table, search);
      SessionStatus(m, jobs[0], wanted, store);
      var (m', file) := SessionOutcome(m, jobs[0], wanted, store);
      if file.Some? {
        CompleteIffHonest(WithFile(m', file.value), spec, jobs[1..], table, search, store);
        assert forall job :: job in jobs <==> job == jobs[0] || job in jobs[1..];
      } else {
        assert jobs[0] in jobs;
      }
    }
  }

  /** The record of an exchange whose two bodies were captured on their way is fine if and only if it has
      a proper time and both bodies were captured whole. With CompleteIffHonest: an export of such
      records says `complete` exactly when nothing of them is missing. */
  lemma FineIffCapturedWhole(t: Transaction, request: BodyCapture.Passage, response: BodyCapture.Passage)
    requires BodyCapture.HasEnded(request) && BodyCapture.HasEnded(response)
    requires Some(t.requestBody) == BodyCapture.Recorded(request)
    requires Some(t.responseBody) == BodyCapture.Recorded(response)
    ensures Fine(Record(t)) <==>
      && t.timestampMillis >= 1 && t.durationMillis >= 0
      && BodyCapture.CapturedWhole(request) && BodyCapture.CapturedWhole(response)
  {
    BodyCapture.RecordedIncompleteIff(request);
    BodyCapture.RecordedIncompleteIff(response);
    hide BodyCapture.Incomplete, BodyCapture.CapturedWhole, BodyCapture.Recorded, BodyCapture.HasEnded;
  }

  /** How many records the sessions ask for, with the lines that their index errors report as skipped. */
  function TotalWanted(spec: ExportSpec, jobs: seq<Job>, table: seq<Sql.Row>, search: Sql.Search): nat {
    if jobs == [] then 0
    else
      var wanted := Wanted(spec, jobs[0], table, search);
      (if wanted == None then 0 else |wanted.value|) + (if jobs[0].indexError then jobs[0].skippedLines else 0)
      + TotalWanted(spec, jobs[1..], table, search)
  }

  lemma OutcomeCounts(m: Manifest, job: Job, wanted: Option<seq<int>>, store: Store)
    ensures
      var (m', file) := SessionOutcome(m, job, wanted, store);
      && (file.Some? ==>
            && wanted.Some? && file.value.visited == wanted.value
            && file.value.exported + file.value.skipped == |wanted.value|
               + (if job.indexError then job.skippedLines else 0))
      && m'.exported == m.exported && m'.skipped == m.skipped && m'.files == m.files
      && (m.status != Failed ==> m'.status != Failed)
  {
    if wanted.Some? && !WriteAll(FirstProgress(job), store, job.session, wanted.value).broken {
      EveryIdOnce(FirstProgress(job), store, job.session, wanted.value);
      assert [] + wanted.value == wanted.value;
    }
    hide WriteAll, Fine;
  }

  /** Unless the export failed, every session has its file, and exported plus skipped is what all of them
      asked for. */
  lemma {:induction false} CountsAddUp(
    m: Manifest, spec: ExportSpec, jobs: seq<Job>, table: seq<Sql.Row>, search: Sql.Search, store: Store)
    requires m.status != Failed && AllOutcomes(m, spec, jobs, table, search, store).status != Failed
    ensures
      var all := AllOutcomes(m, spec, jobs, table, search, store);
      && all.exported + all.skipped == m.exported + m.skipped + TotalWanted(spec, jobs, table, search)
      && all.files == m.files + |jobs|
    decreases |jobs|
  {
    hide SessionOutcome, Wanted;
    if jobs != [] {
      var wanted := Wanted(spec, jobs[0], table, search);
      OutcomeCounts(m, jobs[0], wanted, store);
      var (m', file) := SessionOutcome(m, jobs[0], wanted, store);
      CountsAddUp(WithFile(m', file.value), spec, jobs[1..], table, search, store);
    }
  }

  /** Exporting a whole session lists each of its rows once, whatever the rows hold. */
  lemma WholeSessionIsWhole(session: string, table: seq<Sql.Row>, search: Sql.Search)
    requires UniqueIds(table)
    ensures
      var list := Listing(WholeSession(session), table, search);
      && Sorted(list, true)
      && (forall r :: r in list <==> r in table && r.session == session)
  {
    var f := WholeSession(session);
    forall r: Sql.Row ensures Accepts(f, r, search) <==> r.session == session {
      WholeSessionAccepts(session, r, search);
    }
    hide Accepts, Sorted, Matching, Sort, UniqueIds;
    MatchingIsUnique(f, table, search);
    SortSorts(Matching(f, table, search), true);
  }

  lemma WholeSessionAccepts(session: string, r: Sql.Row, search: Sql.Search)
    ensures Accepts(WholeSession(session), r, search) <==> r.session == session
  {
    var mode := Lower(Trim(""));
    assert mode == "";
  }

  /** A filtered export of a session tries exactly the rows of that session that the page's filter accepts,
      in the page's order; it is refused exactly when the page would refuse the filter. */
  lemma FilteredIsFiltered(spec: ExportSpec, job: Job, table: seq<Sql.Row>, search: Sql.Search)
    requires spec.scope == FilteredRequests && UniqueIds(table)
    ensures
      var f := spec.requestFilter.(sessionId := job.session);
      match Wanted(spec, job, table, search)
      case None => !IsValid(f)
      case Some(ids) =>
        && IsValid(f)
        && var list := Listing(f, table, search);
        && ids == IdsOf(list) && Sorted(list, spec.requestFilter.ascending)
        && forall r :: r in list <==>
             r in table && r.session == job.session && Accepts(spec.requestFilter.(sessionId := r.session), r, search)
  {
    var f := spec.requestFilter.(sessionId := job.session);
    forall r: Sql.Row
      ensures Accepts(f, r, search) <==>
        r.session == job.session && Accepts(spec.requestFilter.(sessionId := r.session), r, search)
    {
      OwnSessionOnly(f, r, search);
    }
    hide Accepts, Sorted, Matching, Sort, UniqueIds, IsValid;
    ListingIgnoresPages(f, JobFilter(spec, job), table, search);
    MatchingIsUnique(f, table, search);
    SortSorts(Matching(f, table, search), f.ascending);
  }

  lemma OwnSessionOnly(f: Filter, r: Sql.Row, search: Sql.Search)
    ensures Accepts(f, r, search) ==> r.session == f.sessionId
  {
  }

  /** A whole export, or a session picked as a whole, tries all rows of the session, once each and in
      ascending order; requests picked by hand are tried as they are given. */
  lemma WholeOrPicked(spec: ExportSpec, job: Job, table: seq<Sql.Row>, search: Sql.Search)
    requires spec.scope != FilteredRequests && UniqueIds(table)
    ensures
      if spec.scope == SelectedRequests && job.session !in spec.sessionIds
      then Wanted(spec, job, table, search) == Some(job.picked)
      else
        var list := Listing(WholeSession(job.session), table, search);
        && Wanted(spec, job, table, search) == (if ValidSessionId(job.session) then Some(IdsOf(list)) else None)
        && Sorted(list, true) && forall r :: r in list <==> r in table && r.session == job.session
  {
    WholeSessionIsWhole(job.session, table, search);
    WholeSessionIsValid(job.session);
    hide Listing, IsValid, ValidSessionId, UniqueIds;
  }

  lemma WholeSessionIsValid(session: string)
    ensures IsValid(WholeSession(session)) <==> ValidSessionId(session)
  {
    var mode := Lower(Trim(""));
    assert mode == "";
  }

  // ----- when an export fails -----

  /** What ends an export early: the archive entry cannot be created, the filter is refused, or writing
      one of the records breaks off. */
  predicate Breaks(job: Job, wanted: Option<seq<int>>, store: Store) {
    || !job.created || wanted == None
    || exists id | id in wanted.value :: store(job.session, id).WriteBreaks?
  }

  lemma {:induction false} BrokenIff(p: Progress, store: Store, session: string, ids: seq<int>)
    ensures WriteAll(p, store, session, ids).broken <==>
      p.broken || exists id | id in ids :: store(session, id).WriteBreaks?
    decreases |ids|
  {
    if ids != [] {
      hide Flawed;
      var front, last := ids[..|ids| - 1], ids[|ids| - 1];
      BrokenIff(p, store, session, front);
      assert ids == front + [last] && last in ids;
    }
  }

  lemma OutcomeBreaks(m: Manifest, job: Job, wanted: Option<seq<int>>, store: Store)
    ensures
      var (m', file) := SessionOutcome(m, job, wanted, store);
      && (file == None <==> Breaks(job, wanted, store))
      && (m.status != Failed ==> m'.status != Failed)
  {
    if wanted.Some? {
      BrokenIff(FirstProgress(job), store, job.session, wanted.value);
    }
    hide WriteAll;
  }

  /** An export fails if and only if one of its sessions breaks it off. So it ends complete when every
      session is honest, failed when one breaks, and partial otherwise. */
  lemma {:induction false} FailedIff(
    m: Manifest, spec: ExportSpec, jobs: seq<Job>, table: seq<Sql.Row>, search: Sql.Search, store: Store)
    requires m.status != Failed
    ensures FinishedStatus(AllOutcomes(m, spec, jobs, table, search, store)) == Failed
      <==> exists job | job in jobs :: Breaks(job, Wanted(spec, job, table, search), store)
    decreases |jobs|
  {
    hide SessionOutcome, Breaks, Wanted;
    if jobs != [] {
      var wanted := Wanted(spec, jobs[0], table, search);
      OutcomeBreaks(m, jobs[0], wanted, store);
      var (m', file) := SessionOutcome(m, jobs[0], wanted, store);
      assert forall job :: job in jobs <==> job == jobs[0] || job in jobs[1..];
      if file.Some? {
        FailedIff(WithFile(m', file.value), spec, jobs[1..], table, search, store);
      }
    }
  }
}
