/** One event-stream connection, ticking while other connections commit to the same index
    (cli/web_live.go:94-192). */
module LiveConnections {
  import opened TrafficDatabase
  import opened LiveStream

  const BATCH: nat := 250

  /** What others commit before each read of a connection: before its k-th read, `schedule(k)`. */
  type Schedule = nat -> seq<Commit>

  /** The index that all connections share. `log` is everything that was ever committed to it. */
  class SharedIndex {
    var db: Db
    ghost const initial: Db
    ghost var log: seq<Commit>

    ghost predicate Valid()
      reads this
    {
      WellFormed(initial) && db == Replay(initial, log)
    }

    /** The tables as they were after the first n commits. */
    ghost function At(n: nat): Db
      requires n <= |log|
      reads this
    {
      Replay(initial, log[..n])
    }

    constructor (start: Db)
      requires WellFormed(start)
      ensures Valid() && db == start && log == []
    {
      db, initial, log := start, start, [];
    }

    method CommitAll(batch: seq<Commit>)
      requires Valid()
      modifies this
      ensures Valid() && log == old(log) + batch && db == Replay(old(db), batch)
      ensures WellFormed(old(db)) && WellFormed(db) && KeepsIds(old(db), db)
    {
      ReplayKeepsTables(initial, log);
      ReplayKeepsTables(db, batch);
      ReplaySplit(initial, log, batch);
      hide WellFormed, KeepsIds;
      ghost var start := db;
      for i := 0 to |batch|
        invariant db == Replay(start, batch[..i])
        invariant log == old(log)
      {
        assert batch[..i + 1][..i] == batch[..i];
        db := Apply(db, batch[i]);
      }
      assert batch[..|batch|] == batch;
      log := log + batch;
    }

    /** The three reads a new connection starts from. */
    method ReadStart(schedule: Schedule)
      returns (revision: map<string, Mark>, lastId: nat, epochs: map<string, nat>, ghost position: nat,
        ghost ids: set<nat>)
      requires Valid()
      modifies this
      ensures Valid() && old(log) <= log && position <= |log|
      ensures revision == Revision(At(position)) && epochs == At(|log|).epochs
      ensures Tracks(lastId, ids, db) && Covers(lastId, At(position), db)
    {
      hide WellFormed, KeepsIds, Tracks, Covers, Revision, MaxId, Replay;
      CommitAll(schedule(0));
      position := |log|;
      ghost var seen, logThen := db, log;
      assert logThen[..position] == logThen;
      revision := Revision(db);
      CommitAll(schedule(1));
      ghost var there := db;
      ids := set r | r in there.requests :: r.id;
      lastId := MaxId(db.requests);
      LatestTracks(there, seen);
      CommitAll(schedule(2));
      assert log[..position] == logThen;
      TracksStable(lastId, ids, there, db);
      CoversStable(lastId, seen, there, db);
      epochs := db.epochs;
      assert log[..|log|] == log;
    }
  }

  class LiveConnection {
    var lastId: nat
    var revision: map<string, Mark>
    var epochs: map<string, nat>
    var events: seq<Event>
    /** The ids in the table when the connection read its starting point. */
    ghost var baseline: set<nat>
    /** How much had been committed when `revision` and `epochs` were read. */
    ghost var mark: nat
    ghost var epochMark: nat

    ghost function Known(): set<nat>
      reads this
    {
      baseline + SentSet(events)
    }

    ghost predicate InStep(index: SharedIndex)
      reads this, index
    {
      && index.Valid() && mark <= |index.log| && epochMark <= |index.log|
      && revision == Revision(index.At(mark)) && epochs == index.At(epochMark).epochs
      && Tracks(lastId, Known(), index.db)
      && Distinct(Sent(events)) && baseline !! SentSet(events)
    }

    /** Between ticks: nothing that was there when the revision was read is still waiting. */
    ghost predicate Connected(index: SharedIndex)
      reads this, index
    {
      InStep(index) && mark <= epochMark && Covers(lastId, index.At(mark), index.db)
    }

    constructor (index: SharedIndex, schedule: Schedule)
      requires index.Valid()
      modifies index
      ensures Connected(index) && fresh(this) && old(index.log) <= index.log && epochMark == |index.log|
      ensures events == [Refresh("connected")]
    {
      hide WellFormed, KeepsIds, Tracks, Covers, Distinct, Revision, MaxId, Replay, Sent;
      var current, latest, newEpochs, position, ids := index.ReadStart(schedule);
      revision, lastId, epochs := current, latest, newEpochs;
      baseline, mark, epochMark := ids, position, |index.log|;
      events := [Refresh("connected")];
      new;
      OnlyConnected();
      assert Known() == ids;
    }

    /** Whatever others commit, the connection stays in step. */
    method Interleave(index: SharedIndex, batch: seq<Commit>)
      requires InStep(index)
      modifies index
      ensures InStep(index) && index.log == old(index.log) + batch && index.db == index.At(|index.log|)
      ensures KeepsIds(old(index.db), index.db) && WellFormed(index.db)
      ensures old(Covers(lastId, index.At(mark), index.db)) ==> Covers(lastId, index.At(mark), index.db)
    {
      hide WellFormed, KeepsIds, Tracks, Covers, Distinct, Revision;
      ghost var before, now := index.At(mark), index.db;
      PastKeepsIds(index.initial, index.log, mark);
      index.CommitAll(batch);
      assert index.log[..mark] == old(index.log)[..mark];
      assert index.log[..epochMark] == old(index.log)[..epochMark] && index.log[..|index.log|] == index.log;
      TracksStable(lastId, Known(), now, index.db);
      if Covers(lastId, before, now) {
        CoversStable(lastId, before, now, index.db);
      }
    }

    /** One batch, if there is anything to send. */
    method SendBatch(index: SharedIndex) returns (any: bool)
      requires InStep(index) && WellFormed(index.db)
      modifies this`lastId, this`events
      ensures InStep(index) && old(events) <= events
      ensures any ==> lastId > old(lastId)
      ensures any ==> exists items :: events == old(events) + [Requests(items)] && IsBatch(items, index.db)
      ensures !any ==> lastId == old(lastId) && Covers(lastId, index.db, index.db) && events == old(events)
    {
      hide WellFormed, Tracks, Covers, Distinct, Revision, Batch;
      var items := Batch(index.db.requests, lastId, BATCH);
      if items == [] {
        NothingLeft(lastId, index.db, BATCH);
        return false;
      }
      SendTracks(lastId, Known(), index.db, BATCH, Sent(events));
      BatchSent(events, items);
      BatchOfRows(index.db, lastId);
      lastId := items[|items| - 1].id;
      events := events + [Requests(items)];
      assert Known() == old(Known()) + set r | r in items :: r.id;
      return true;
    }

    /** One turn of the batch loop: others commit, then a batch is read and sent. */
    method NextBatch(index: SharedIndex, others: seq<Commit>, ghost before: seq<Event>, ghost sent: seq<Event>)
      returns (any: bool, ghost sent': seq<Event>)
      requires InStep(index) && events == before + sent && OnlyBatches(sent)
      modifies this`lastId, this`events, index
      ensures InStep(index) && old(index.log) <= index.log
      ensures WellFormed(index.db) && KeepsIds(old(index.db), index.db)
      ensures events == before + sent' && OnlyBatches(sent')
      ensures if any then lastId > old(lastId) else lastId == old(lastId) && Covers(lastId, index.db, index.db)
    {
      hide WellFormed, KeepsIds, Tracks, Covers, Distinct, Revision, OnlyBatches, IsBatch, InStep;
      Interleave(index, others);
      any := SendBatch(index);
      sent' := sent;
      if any {
        ghost var items :| events == before + sent + [Requests(items)] && IsBatch(items, index.db);
        OneMoreBatch(before, sent, items, index.db);
        sent' := sent + [Requests(items)];
      }
    }

    method SendRefresh(index: SharedIndex, reason: string)
      requires InStep(index)
      modifies this`events
      ensures InStep(index) && events == old(events) + [Refresh(reason)]
    {
      NothingSent(events, Refresh(reason));
      hide WellFormed, Tracks, Distinct, Revision, Replay, Sent;
      events := events + [Refresh(reason)];
    }

    /** Following the newest id down. */
    method FallBack(index: SharedIndex, latest: nat)
      requires InStep(index) && WellFormed(index.db) && latest == MaxId(index.db.requests) < lastId
      modifies this`lastId
      ensures InStep(index) && Covers(lastId, index.db, index.db)
    {
      hide WellFormed, Tracks, Covers, Distinct, Revision, Replay, MaxId;
      FallBackTracks(lastId, Known(), index.db);
      lastId := latest;
    }

    /** The batch loop, up to the newest id that was read before it. */
    method SendRows(index: SharedIndex, schedule: Schedule, latest: nat) returns (ghost sent: seq<Event>)
      requires InStep(index) && WellFormed(index.db) && lastId <= latest == MaxId(index.db.requests)
      modifies this`lastId, this`events, index
      ensures InStep(index) && old(index.log) <= index.log
      ensures events == old(events) + sent && OnlyBatches(sent)
      ensures Covers(lastId, old(index.db), index.db)
    {
      hide WellFormed, KeepsIds, Tracks, Covers, Distinct, Revision, MaxId, OnlyBatches, InStep;
      ghost var oldEvents, there := events, index.db;
      KeepsIdsItself(there);
      sent := [];
      assert OnlyBatches(sent) by {
        NewsBehind(events, sent, false);
      }
      var k, more := 3, true;
      while lastId < latest && more
        invariant InStep(index) && WellFormed(index.db)
        invariant old(index.log) <= index.log
        invariant events == oldEvents + sent && OnlyBatches(sent)
        invariant KeepsIds(there, index.db)
        invariant !more ==> Covers(lastId, index.db, index.db)
        decreases latest - lastId, more
      {
        ghost var now := index.db;
        more, sent := NextBatch(index, schedule(k), oldEvents, sent);
        KeepsIdsTransitive(there, now, index.db);
        k := k + 1;
      }
      if more {
        ReachedLatest(lastId, there, index.db);
      } else {
        NothingLeftNow(lastId, there, index.db);
      }
    }

    /** The batches of one tick. `readAt` is the moment the newest id was read: every row that was there
        then and still is has reached the client when this returns. */
    method SendBatches(index: SharedIndex, schedule: Schedule) returns (ghost readAt: nat)
      requires InStep(index)
      modifies this`lastId, this`events, index
      ensures InStep(index)
      ensures old(|index.log|) <= readAt <= |index.log| && old(index.log) <= index.log && old(events) <= events
      ensures Covers(lastId, index.At(readAt), index.db)
      // batches, and then a refresh that says whether the newest id fell back
      ensures
        var fell := old(lastId) > 0 && forall r | r in index.At(readAt).requests :: r.id < old(lastId);
        IsNews(events[|old(events)|..], fell)
    {
      hide WellFormed, KeepsIds, Tracks, Covers, Distinct, Revision, MaxId, IsNews, OnlyBatches, InStep, Replay;
      ghost var oldEvents := events;
      Interleave(index, schedule(2));
      readAt := |index.log|;
      ghost var logThen, there := index.log, index.db;
      var latest := MaxId(index.db.requests);
      FellBackIff(there, lastId);
      if latest < lastId {
        FallBack(index, latest);
        SendRefresh(index, "index-reset");
        NewsBehind(oldEvents, [], true);
      } else {
        ghost var sent := SendRows(index, schedule, latest);
        SendRefresh(index, "index-changed");
        NewsBehind(oldEvents, sent, false);
      }
      assert index.log[..readAt] == logThen[..readAt];
    }

    /** Reads the epochs and reports every session whose epoch is not the remembered one. */
    method NoteResets(index: SharedIndex)
      requires InStep(index)
      modifies this`epochs, this`epochMark, this`events
      ensures InStep(index) && epochMark == |index.log| && epochs == index.db.epochs && old(events) <= events
      ensures forall id | id in ResetSet(old(epochs), epochs) :: Reported(events[|old(events)|..], id)
      // what is reported is exactly what has an epoch that it did not have when they were last read
      ensures forall id :: Reported(events[|old(events)|..], id) <==>
        id in index.db.epochs && EpochOf(index.db, id) != EpochOf(index.At(old(epochMark)), id)
      ensures events == old(events) || exists sessions :: sessions != {} && events == old(events) + [Reset(sessions)]
    {
      hide WellFormed, Tracks, Distinct, Revision, Replay, Sent, Reported, ResetSet;
      var newEpochs := index.db.epochs;
      var sessions := ResetSet(epochs, newEpochs);
      assert index.log[..|index.log|] == index.log;
      ResetSetIsChange(index.At(epochMark), index.db);
      NothingReported([]);
      assert events[|events|..] == [];
      epochs, epochMark := newEpochs, |index.log|;
      if sessions != {} {
        NothingSent(events, Reset(sessions));
        events := events + [Reset(sessions)];
        ResetReports(sessions);
        assert events[|old(events)|..] == [Reset(sessions)];
      }
    }

    /** A tick that found the revision unchanged. */
    method BeatIdly(index: SharedIndex)
      requires Connected(index) && Revision(index.db) == revision
      modifies this`events
      ensures Connected(index) && events == old(events) + [Heartbeat] && Known() == old(Known())
      ensures forall r | r in index.db.requests && Removed(r.session) !in index.log[mark..] :: r.id in Known()
      ensures forall n, r | epochMark <= n <= |index.log| && r in index.At(n).requests
        && Removed(r.session) !in index.log[mark..] :: r in index.db.requests
    {
      hide WellFormed, KeepsIds, Tracks, Covers, Distinct, Revision, Replay;
      PastKeepsIds(index.initial, index.log, mark);
      SplitAt(index.initial, index.log, mark, |index.log|);
      IdleDelivers(lastId, Known(), index.At(mark), index.log[mark..]);
      forall n | epochMark <= n <= |index.log|
        ensures forall r | r in index.At(n).requests && Removed(r.session) !in index.log[mark..] ::
          r in index.db.requests
      {
        PastKeepsIds(index.initial, index.log, n);
        IdleDroppedNothing(index.initial, index.log, mark, n);
      }
      NothingSent(events, Heartbeat);
      events := events + [Heartbeat];
    }

    /** A tick that found a new revision. */
    method SendNews(index: SharedIndex, schedule: Schedule) returns (ghost readAt: nat)
      requires Connected(index)
      modifies this, index
      ensures Connected(index) && baseline == old(baseline)
      ensures old(|index.log|) <= readAt <= |index.log| && old(index.log) <= index.log && old(events) <= events
      ensures forall r | r in index.At(readAt).requests && r in index.db.requests :: r.id in Known()
      ensures old(|index.log|) <= epochMark <= |index.log|
      ensures DropsReported(index.initial, index.log, old(epochMark), epochMark, events[|old(events)|..])
      ensures EpochsReported(index.initial, index.log, old(epochMark), epochMark, events[|old(events)|..])
    {
      hide WellFormed, KeepsIds, Tracks, Covers, Distinct, Revision, Replay, DropsReported, Reported, EpochOf, IsNews;
      ghost var lastThen := lastId;
      ghost var logThen, oldEpochMark, oldEvents := index.log, epochMark, events;
      assert logThen[..|logThen|] == logThen;
      revision, mark := Revision(index.db), |index.log|;
      Interleave(index, schedule(1));
      NoteResets(index);
      ghost var logNoted, eventsNoted := index.log, events;
      assert logNoted[..epochMark] == logNoted;
      assert logNoted[..oldEpochMark] == logThen[..oldEpochMark];
      DropsAreNoted(index.initial, logNoted, oldEpochMark, events[|oldEvents|..]);
      readAt := SendBatches(index, schedule);
      assert index.log[..|logThen|] == logThen && index.log[..oldEpochMark] == logNoted[..oldEpochMark]
        && index.log[..epochMark] == logNoted;
      OnlyNotesReport(eventsNoted[|oldEvents|..], events[|eventsNoted|..],
        lastThen > 0 && forall r | r in index.At(readAt).requests :: r.id < lastThen);
      CoversEarlier(lastId, index.initial, index.log, mark, readAt);
      Delivered(lastId, Known(), index.At(readAt), index.db);
      assert events[|oldEvents|..] == eventsNoted[|oldEvents|..] + events[|eventsNoted|..];
      DropsPast(index.initial, logNoted, index.log, oldEpochMark, epochMark, eventsNoted[|oldEvents|..]);
      DropsStillReported(index.initial, index.log, oldEpochMark, epochMark, eventsNoted[|oldEvents|..],
        events[|eventsNoted|..]);
    }

    /** One tick. It is idle when the revision has not changed since the last tick that was not. */
    method Tick(index: SharedIndex, schedule: Schedule) returns (idle: bool, ghost readAt: nat, ghost seenAt: nat)
      requires Connected(index)
      modifies this, index
      ensures Connected(index) && baseline == old(baseline)
      ensures old(|index.log|) <= seenAt <= readAt <= |index.log| && old(index.log) <= index.log
        && old(events) <= events
      // not idle: whatever was there at readAt and still is has reached the client
      ensures !idle ==> forall r | r in index.At(readAt).requests && r in index.db.requests :: r.id in Known()
      // idle: whatever is there has reached the client, for sessions that stayed in the table
      ensures idle ==> mark == old(mark) && epochMark == old(epochMark)
      ensures idle ==> forall r | r in index.db.requests && Removed(r.session) !in index.log[mark..] :: r.id in Known()
      // a row that was there at any time since the epochs were last read and is gone when the tick looks,
      // from a session that stayed: no idle tick, and a report
      ensures forall n, r | old(epochMark) <= n <= seenAt && r in index.At(n).requests
        && r !in index.At(seenAt).requests && Removed(r.session) !in index.log[old(mark)..] ::
        !idle && Reported(events[|old(events)|..], r.session)
      // not idle: every such drop until the epochs are read again is reported
      ensures !idle ==>
        && seenAt <= epochMark <= |index.log|
        && DropsReported(index.initial, index.log, old(epochMark), epochMark, events[|old(events)|..])
      // and nothing is reported that was not reset; an idle tick sends a heartbeat and no more
      ensures !idle ==> EpochsReported(index.initial, index.log, old(epochMark), epochMark, events[|old(events)|..])
      ensures idle ==> events == old(events) + [Heartbeat]
    {
      hide WellFormed, KeepsIds, Tracks, Covers, Distinct, Revision, Replay, Reported, EpochOf;
      Interleave(index, schedule(0));
      seenAt := |index.log|;
      ghost var logThen := index.log;
      assert logThen[..seenAt] == logThen && logThen[..epochMark] == old(index.log)[..epochMark];
      var current := Revision(index.db);
      idle := current == revision;
      if idle {
        readAt := seenAt;
        BeatIdly(index);
      } else {
        readAt := SendNews(index, schedule);
        assert index.log[..seenAt] == logThen;
        EarlierDropsReported(index.initial, index.log, old(mark), old(epochMark), seenAt, epochMark,
          events[|old(events)|..]);
      }
      assert forall n | 0 <= n <= seenAt :: index.log[..n] == logThen[..n];
    }
  }

  /** Every row that was there at some time from `from` on and is gone at `to`, from a session that was not
      removed in that time, is reported by one of the events. */
  ghost predicate DropsReported(initial: Db, log: seq<Commit>, from: nat, to: nat, events: seq<Event>) {
    forall n, r | from <= n <= to <= |log| && r in Replay(initial, log[..n]).requests
      && r !in Replay(initial, log[..to]).requests
         && Removed(r.session) !in log[from..to] :: Reported(events, r.session)
  }

  /** The events report exactly the sessions that have an epoch at `to` which they did not have at `from`. */
  ghost predicate EpochsReported(initial: Db, log: seq<Commit>, from: nat, to: nat, events: seq<Event>)
    requires from <= |log| && to <= |log|
  {
    var before, now := Replay(initial, log[..from]), Replay(initial, log[..to]);
    forall id :: Reported(events, id) <==> id in now.epochs && EpochOf(now, id) != EpochOf(before, id)
  }

  /** Every session that the events report was reset in that time, and every session that stayed in the
      table and was reset is reported. */
  ghost predicate ResetsReported(initial: Db, log: seq<Commit>, from: nat, to: nat, events: seq<Event>)
    requires from <= to <= |log|
  {
    && (forall id | Reported(events, id) :: Resets(log[from..to], id) > 0)
    && (forall id | id in Replay(initial, log[..from]).sessions && Removed(id) !in log[from..to]
          && Resets(log[from..to], id) > 0 :: Reported(events, id))
  }

  /** A whole connection: whatever is committed before and between its reads, no id is sent twice, none
      that was there when it connected is sent at all, and every drop from a session that stayed is
      reported, from the first reading of the epochs to the last. */
  method HandleLiveEvents(index: SharedIndex, start: Schedule, ticks: seq<Schedule>)
    returns (c: LiveConnection, ghost from: nat)
    requires index.Valid()
    modifies index
    ensures fresh(c) && c.Connected(index)
    ensures Distinct(Sent(c.events)) && c.baseline !! SentSet(c.events)
    ensures old(|index.log|) <= from <= c.epochMark
      && DropsReported(index.initial, index.log, from, c.epochMark, c.events)
    ensures c.epochMark <= |index.log| && ResetsReported(index.initial, index.log, from, c.epochMark, c.events)
  {
    hide Tracks, Covers, Distinct, Sent, Revision, Replay, Reported, DropsReported, ResetsReported, EpochsReported;
    c := new LiveConnection(index, start);
    from := c.epochMark;
    NoDropsYet(index.initial, index.log, from, c.events);
    NoResetsYet(index.initial, index.log, from, c.events);
    for i := 0 to |ticks|
      invariant fresh(c) && c.Connected(index)
      invariant old(|index.log|) <= from <= c.epochMark
        && DropsReported(index.initial, index.log, from, c.epochMark, c.events)
      invariant c.epochMark <= |index.log| && ResetsReported(index.initial, index.log, from, c.epochMark, c.events)
    {
      ghost var to, events, logThen := c.epochMark, c.events, index.log;
      var idle, _, _ := c.Tick(index, ticks[i]);
      DropsPast(index.initial, logThen, index.log, from, to, events);
      ResetsPast(index.initial, logThen, index.log, from, to, events);
      assert c.events == events + c.events[|events|..];
      if idle {
        DropsStillReported(index.initial, index.log, from, to, events, c.events[|events|..]);
        HeartbeatReportsNothing(index.initial, index.log, from, to, events);
      } else {
        EpochsTellResets(index.initial, index.log, to, c.epochMark, c.events[|events|..]);
        ResetsChain(index.initial, index.log, from, to, c.epochMark, events, c.events[|events|..]);
        DropsChain(index.initial, index.log, from, to, c.epochMark, events, c.events[|events|..]);
      }
    }
  }

  // ----- what is reported was reset -----

  /** What a client can be sent as one batch. */
  ghost predicate IsBatch(items: seq<Request>, db: Db) {
    0 < |items| <= BATCH && forall r | r in items :: r in db.requests
  }

  lemma BatchOfRows(db: Db, lastId: nat)
    requires WellFormed(db) && Batch(db.requests, lastId, BATCH) != []
    ensures IsBatch(Batch(db.requests, lastId, BATCH), db)
  {
    BatchIsStretch(db.requests, lastId, BATCH, db.lastRowId);
    hide RowsAfter;
  }

  lemma FellBackIff(db: Db, lastId: nat)
    requires WellFormed(db)
    ensures MaxId(db.requests) < lastId <==> lastId > 0 && forall r | r in db.requests :: r.id < lastId
  {
    MaxIdBounds(db.requests, db.lastRowId);
    MaxIdIsThere(db.requests);
    hide MaxId;
  }

  lemma ResetSetIsChange(before: Db, now: Db)
    ensures forall id :: id in ResetSet(before.epochs, now.epochs) <==>
      id in now.epochs && EpochOf(now, id) != EpochOf(before, id)
  {
  }

  lemma NothingReported(events: seq<Event>)
    requires forall e | e in events :: !e.Reset?
    ensures forall id :: !Reported(events, id)
  {
  }

  lemma ReportedEither(a: seq<Event>, b: seq<Event>)
    ensures forall id :: Reported(a + b, id) <==> Reported(a, id) || Reported(b, id)
  {
    StillReported(a, b);
    StillReportedBehind(a, b);
  }

  predicate OnlyBatches(events: seq<Event>) {
    forall e | e in events :: e.Requests? && 0 < |e.items| <= BATCH
  }

  /** Batches, and a refresh behind them; only the refresh when the newest id fell back. */
  predicate IsNews(events: seq<Event>, fell: bool) {
    && events != []
    && events[|events| - 1] == Refresh(if fell then "index-reset" else "index-changed")
    && OnlyBatches(events[..|events| - 1])
    && (fell ==> |events| == 1)
  }

  lemma NewsBehind(before: seq<Event>, sent: seq<Event>, fell: bool)
    requires fell ==> sent == []
    ensures OnlyBatches([])
    ensures
      var all := before + sent + [Refresh(if fell then "index-reset" else "index-changed")];
      before <= all && (OnlyBatches(sent) ==> IsNews(all[|before|..], fell))
    ensures before + [] == before
  {
    var last := Refresh(if fell then "index-reset" else "index-changed");
    assert (before + sent + [last])[|before|..] == sent + [last];
    assert (sent + [last])[..|sent|] == sent;
  }

  lemma OneMoreBatch(before: seq<Event>, sent: seq<Event>, items: seq<Request>, db: Db)
    requires OnlyBatches(sent) && IsBatch(items, db)
    ensures OnlyBatches(sent + [Requests(items)])
    ensures before + sent + [Requests(items)] == before + (sent + [Requests(items)])
  {
  }

  lemma OnlyNotesReport(notes: seq<Event>, news: seq<Event>, fell: bool)
    requires IsNews(news, fell)
    ensures forall id :: Reported(notes + news, id) <==> Reported(notes, id)
  {
    assert news == news[..|news| - 1] + [news[|news| - 1]];
    NothingReported(news);
    ReportedEither(notes, news);
    hide Reported;
  }

  lemma NoResetsYet(initial: Db, log: seq<Commit>, from: nat, events: seq<Event>)
    requires from <= |log| && forall e | e in events :: !e.Reset?
    ensures ResetsReported(initial, log, from, from, events)
  {
    hide Replay;
    assert log[from..from] == [];
  }

  lemma ResetsPast(initial: Db, before: seq<Commit>, log: seq<Commit>, from: nat, to: nat, events: seq<Event>)
    requires from <= to <= |before| && before <= log && ResetsReported(initial, before, from, to, events)
    ensures ResetsReported(initial, log, from, to, events)
  {
    hide Replay, Reported, Resets;
    assert log[..from] == before[..from] && log[from..to] == before[from..to];
  }

  lemma HeartbeatReportsNothing(initial: Db, log: seq<Commit>, from: nat, to: nat, events: seq<Event>)
    requires from <= to <= |log| && ResetsReported(initial, log, from, to, events)
    ensures ResetsReported(initial, log, from, to, events + [Heartbeat])
  {
    hide Replay, Resets;
    NothingReported([Heartbeat]);
    ReportedEither(events, [Heartbeat]);
    hide Reported;
  }

  /** A changed epoch means a reset, and a reset of a session that stays changes its epoch. */
  lemma EpochsTellResets(initial: Db, log: seq<Commit>, from: nat, to: nat, events: seq<Event>)
    requires from <= to <= |log| && EpochsReported(initial, log, from, to, events)
    ensures ResetsReported(initial, log, from, to, events)
  {
    hide Replay, Reported, Resets;
    var before, now := Replay(initial, log[..from]), Replay(initial, log[..to]);
    SplitAt(initial, log, from, to);
    forall id | Reported(events, id) ensures Resets(log[from..to], id) > 0 {
      if Resets(log[from..to], id) == 0 {
        NoResetNoEpoch(before, log[from..to], id);
      }
    }
    forall id | id in before.sessions && Removed(id) !in log[from..to] && Resets(log[from..to], id) > 0
      ensures Reported(events, id)
    {
      EpochCountsResets(before, log[from..to], id);
    }
  }

  lemma ResetsChain(initial: Db, log: seq<Commit>, from: nat, mid: nat, to: nat, a: seq<Event>, b: seq<Event>)
    requires from <= mid <= to <= |log|
    requires ResetsReported(initial, log, from, mid, a) && ResetsReported(initial, log, mid, to, b)
    ensures ResetsReported(initial, log, from, to, a + b)
  {
    hide Replay, Reported, Resets;
    ReportedEither(a, b);
    assert log[from..to] == log[from..mid] + log[mid..to];
    SplitAt(initial, log, from, mid);
    forall id ensures Resets(log[from..to], id) == Resets(log[from..mid], id) + Resets(log[mid..to], id) {
      ResetsAppend(log[from..mid], log[mid..to], id);
    }
    forall id | id in Replay(initial, log[..from]).sessions && Removed(id) !in log[from..to]
      ensures id in Replay(initial, log[..mid]).sessions
    {
      SessionStays(Replay(initial, log[..from]), log[from..mid], id);
    }
  }

  lemma NoDropsYet(initial: Db, log: seq<Commit>, from: nat, events: seq<Event>)
    ensures DropsReported(initial, log, from, from, events)
  {
    hide Replay, Reported;
  }

  /** What was true of the past is still true when the log has grown. */
  lemma DropsPast(initial: Db, before: seq<Commit>, log: seq<Commit>, from: nat, to: nat, events: seq<Event>)
    requires DropsReported(initial, before, from, to, events) && to <= |before| && before <= log
    ensures DropsReported(initial, log, from, to, events)
  {
    hide Replay, Reported;
    assert forall n | 0 <= n <= to :: log[..n] == before[..n];
    assert from <= to ==> log[from..to] == before[from..to];
  }

  lemma DropsStillReported(initial: Db, log: seq<Commit>, from: nat, to: nat, a: seq<Event>, b: seq<Event>)
    requires DropsReported(initial, log, from, to, a)
    ensures DropsReported(initial, log, from, to, a + b)
  {
    hide Replay, Reported;
    StillReported(a, b);
  }

  /** What is gone at `seen` is gone when the epochs are read, so it is reported with the rest. */
  lemma EarlierDropsReported(
    initial: Db, log: seq<Commit>, mark: nat, from: nat, seen: nat, to: nat, events: seq<Event>)
    requires WellFormed(initial) && mark <= from <= seen <= to <= |log| && DropsReported(initial, log, from, to, events)
    ensures forall n, r | from <= n <= seen && r in Replay(initial, log[..n]).requests
      && r !in Replay(initial, log[..seen]).requests
         && Removed(r.session) !in log[mark..] :: Reported(events, r.session)
  {
    hide Replay, Reported, WellFormed, KeepsIds;
    assert log[from..to] == log[mark..][from - mark..to - mark];
    forall n, r | from <= n <= seen && r in Replay(initial, log[..n]).requests
      && r !in Replay(initial, log[..seen]).requests && Removed(r.session) !in log[mark..]
      ensures Reported(events, r.session)
    {
      assert log[..to][..seen] == log[..seen] && log[..seen][..n] == log[..n];
      PastKeepsIds(initial, log[..to], seen);
      PastKeepsIds(initial, log[..seen], n);
      OldRowsOnly(Replay(initial, log[..n]), Replay(initial, log[..seen]), Replay(initial, log[..to]));
    }
  }

  /** A row that is gone at `to` was gone at `mid` already, or there at `mid`. */
  lemma DropsChain(initial: Db, log: seq<Commit>, from: nat, mid: nat, to: nat, a: seq<Event>, b: seq<Event>)
    requires from <= mid <= to <= |log|
    requires DropsReported(initial, log, from, mid, a) && DropsReported(initial, log, mid, to, b)
    ensures DropsReported(initial, log, from, to, a + b)
  {
    hide Replay, Reported;
    StillReported(a, b);
    StillReportedBehind(a, b);
    assert log[from..to] == log[from..mid] + log[mid..to];
  }

  lemma StillReportedBehind(a: seq<Event>, b: seq<Event>)
    ensures forall id | Reported(b, id) :: Reported(a + b, id)
  {
    forall id | Reported(b, id) ensures Reported(a + b, id) {
      var e :| e in b && e.Reset? && id in e.sessions;
      assert e in a + b;
    }
  }

  /** Whether one of the events tells the client that this session was reset. */
  ghost predicate Reported(events: seq<Event>, id: string) {
    exists e | e in events :: e.Reset? && id in e.sessions
  }

  /** The sessions whose epoch is not the remembered one; an unknown session counts as epoch 0. */
  function ResetSet(earlier: map<string, nat>, now: map<string, nat>): set<string> {
    set id | id in now && now[id] != (if id in earlier then earlier[id] else 0)
  }

  lemma ResetReports(sessions: set<string>)
    ensures forall id :: Reported([Reset(sessions)], id) <==> id in sessions
  {
    assert Reset(sessions) in [Reset(sessions)];
  }

  lemma StillReported(a: seq<Event>, b: seq<Event>)
    ensures forall id | Reported(a, id) :: Reported(a + b, id)
  {
    forall id | Reported(a, id) ensures Reported(a + b, id) {
      var e :| e in a && e.Reset? && id in e.sessions;
      assert e in a + b;
    }
  }

  lemma PastKeepsIds(initial: Db, log: seq<Commit>, n: nat)
    requires WellFormed(initial) && n <= |log|
    ensures WellFormed(Replay(initial, log[..n])) && WellFormed(Replay(initial, log))
    ensures KeepsIds(Replay(initial, log[..n]), Replay(initial, log))
  {
    hide WellFormed, KeepsIds, Apply;
    ReplayKeepsTables(initial, log[..n]);
    ReplayKeepsTables(initial, log);
    assert log == log[..n] + log[n..];
    ReplaySplit(initial, log[..n], log[n..]);
    ReplayKeepsTables(Replay(initial, log[..n]), log[n..]);
  }

  /** The starting point of a connection: everything in the table is known, also what an earlier state
      had and what is still there. */
  lemma LatestTracks(db: Db, before: Db)
    requires WellFormed(db)
    ensures Tracks(MaxId(db.requests), set r | r in db.requests :: r.id, db)
    ensures Covers(MaxId(db.requests), before, db)
  {
    MaxIdBounds(db.requests, db.lastRowId);
    hide MaxId;
  }

  /** Falling back to a smaller newest id forgets only ids that are gone for good. */
  lemma FallBackTracks(lastId: nat, known: set<nat>, db: Db)
    requires WellFormed(db) && Tracks(lastId, known, db) && MaxId(db.requests) < lastId
    ensures Tracks(MaxId(db.requests), known, db)
    ensures Covers(MaxId(db.requests), db, db)
  {
    MaxIdBounds(db.requests, db.lastRowId);
    hide MaxId;
  }

  lemma {:induction false} NothingSent(events: seq<Event>, e: Event)
    requires !e.Requests?
    ensures Sent(events + [e]) == Sent(events) && SentSet(events + [e]) == SentSet(events)
  {
    assert (events + [e])[..|events|] == events;
  }

  lemma OnlyConnected()
    ensures Sent([Refresh("connected")]) == [] && SentSet([Refresh("connected")]) == {}
    ensures Distinct(Sent([Refresh("connected")]))
  {
    NothingSent([], Refresh("connected"));
    assert [] + [Refresh("connected")] == [Refresh("connected")];
  }

  lemma BatchSent(events: seq<Event>, items: seq<Request>)
    ensures Sent(events + [Requests(items)]) == Sent(events) + IdsOf(items)
    ensures SentSet(events + [Requests(items)]) == SentSet(events) + set r | r in items :: r.id
  {
    assert (events + [Requests(items)])[..|events|] == events;
    forall id ensures id in IdsOf(items) <==> id in set r | r in items :: r.id {
      if id in IdsOf(items) {
        var i :| 0 <= i < |items| && IdsOf(items)[i] == id;
        assert items[i] in items;
      }
      if r :| r in items && r.id == id {
        var i :| 0 <= i < |items| && items[i] == r;
        assert IdsOf(items)[i] == id;
      }
    }
  }

  lemma NothingLeft(lastId: nat, db: Db, limit: nat)
    requires WellFormed(db) && limit > 0 && Batch(db.requests, lastId, limit) == []
    ensures Covers(lastId, db, db)
  {
    BatchIsStretch(db.requests, lastId, limit, db.lastRowId);
    hide Batch;
  }

  lemma NothingLeftNow(lastId: nat, before: Db, db: Db)
    requires Covers(lastId, db, db)
    ensures Covers(lastId, before, db)
  {
  }

  lemma ReachedLatest(lastId: nat, before: Db, db: Db)
    requires WellFormed(before) && lastId >= MaxId(before.requests)
    ensures Covers(lastId, before, db)
  {
    MaxIdBounds(before.requests, before.lastRowId);
    hide MaxId;
  }

  lemma KeepsIdsItself(db: Db)
    ensures KeepsIds(db, db)
  {
  }

  lemma KeepsIdsTransitive(a: Db, b: Db, c: Db)
    requires KeepsIds(a, b) && KeepsIds(b, c)
    ensures KeepsIds(a, c)
  {
    forall r | r in c.requests && r.id <= a.lastRowId ensures r in a.requests {
      assert r in b.requests;
    }
  }

  /** An equal revision means that nothing is waiting, for sessions that stayed in the table. */
  lemma IdleDelivers(lastId: nat, known: set<nat>, before: Db, log: seq<Commit>)
    requires WellFormed(Replay(before, log)) && Revision(before) == Revision(Replay(before, log))
    requires Tracks(lastId, known, Replay(before, log)) && Covers(lastId, before, Replay(before, log))
    ensures forall r | r in Replay(before, log).requests && Removed(r.session) !in log :: r.id in known
  {
    hide Replay, MarkOf, IdsAscend;
    var db := Replay(before, log);
    forall r | r in db.requests && Removed(r.session) !in log ensures r.id in known {
      var id := r.session;
      assert id in Revision(db) && id in Revision(before);
      EqualRevisionEqualRows(before, log, id);
      RequestsOfMembers(db.requests, id);
      RequestsOfMembers(before.requests, id);
      assert r in before.requests;
    }
  }

  lemma CoversEarlier(lastId: nat, initial: Db, log: seq<Commit>, m: nat, n: nat)
    requires WellFormed(initial) && m <= n <= |log|
    requires Covers(lastId, Replay(initial, log[..n]), Replay(initial, log))
    ensures Covers(lastId, Replay(initial, log[..m]), Replay(initial, log))
  {
    hide Replay, IdsAscend, WellFormed;
    PastKeepsIds(initial, log, n);
    PastKeepsIds(initial, log[..n], m);
    assert log[..n][..m] == log[..m];
    OldRowsOnly(Replay(initial, log[..m]), Replay(initial, log[..n]), Replay(initial, log));
  }

  /** A row of the first state that is in the last one was also in between. */
  lemma OldRowsOnly(a: Db, b: Db, c: Db)
    requires WellFormed(a) && KeepsIds(a, b) && KeepsIds(b, c)
    ensures forall r | r in a.requests && r in c.requests :: r in b.requests
  {
    forall r | r in a.requests && r in c.requests ensures r in b.requests {
      assert r.id <= a.lastRowId;
    }
  }

  lemma Delivered(lastId: nat, known: set<nat>, before: Db, db: Db)
    requires Tracks(lastId, known, db) && Covers(lastId, before, db)
    ensures forall r | r in before.requests && r in db.requests :: r.id in known
  {
  }

  lemma SplitAt(initial: Db, log: seq<Commit>, m: nat, n: nat)
    requires m <= n <= |log|
    ensures Replay(initial, log[..n]) == Replay(Replay(initial, log[..m]), log[m..n])
    ensures log[..|log|] == log && log[m..|log|] == log[m..]
  {
    hide Replay;
    assert log[..n] == log[..m] + log[m..n];
    ReplaySplit(initial, log[..m], log[m..n]);
  }

  lemma ApplyKeepsSession(db: Db, c: Commit, id: string)
    requires id in db.sessions && c != Removed(id)
    ensures id in Apply(db, c).sessions
  {
    hide Without, Numbered;
  }

  lemma {:induction false} SessionStays(db: Db, log: seq<Commit>, id: string)
    requires id in db.sessions && Removed(id) !in log
    ensures id in Replay(db, log).sessions
    decreases |log|
  {
    hide Apply;
    if log != [] {
      SessionStays(db, log[..|log| - 1], id);
      ApplyKeepsSession(Replay(db, log[..|log| - 1]), log[|log| - 1], id);
    }
  }

  /** With the revision unchanged, nothing was dropped since the epochs were read. */
  lemma IdleDroppedNothing(initial: Db, log: seq<Commit>, m: nat, n: nat)
    requires m <= n <= |log| && WellFormed(Replay(initial, log[..n]))
    requires Revision(Replay(initial, log[..m])) == Revision(Replay(initial, log))
    ensures forall r | r in Replay(initial, log[..n]).requests && Removed(r.session) !in log[m..] ::
      r in Replay(initial, log).requests
  {
    hide Replay, RequestsOf, IdsAscend;
    var a, b, c := Replay(initial, log[..m]), Replay(initial, log[..n]), Replay(initial, log);
    SplitAt(initial, log, m, n);
    SplitAt(initial, log, n, |log|);
    forall r | r in b.requests && Removed(r.session) !in log[m..] ensures r in c.requests {
      var id := r.session;
      assert log[m..] == log[m..n] + log[n..];
      ReplayEpoch(a, log[m..n], id);
      SessionStays(b, log[n..], id);
      assert MarkOf(c, id) == Revision(c)[id] == Revision(a)[id] == MarkOf(a, id);
      if r !in c.requests {
        DroppedRowRaisesEpoch(b, log[n..], r);
      }
    }
  }

  /** A row that was there at any time after the epochs were read at m and is gone at the end of the log
      shows in the epochs read then. */
  lemma DropsAreNoted(initial: Db, log: seq<Commit>, m: nat, events: seq<Event>)
    requires m <= |log|
    requires forall id | id in ResetSet(Replay(initial, log[..m]).epochs, Replay(initial, log).epochs) ::
      Reported(events, id)
    ensures DropsReported(initial, log, m, |log|, events)
  {
    hide Replay, RequestsOf, Reported;
    assert log[..|log|] == log && log[m..|log|] == log[m..];
    forall n, r | m <= n <= |log| && r in Replay(initial, log[..n]).requests
      && r !in Replay(initial, log[..|log|]).requests && Removed(r.session) !in log[m..|log|]
      ensures Reported(events, r.session)
    {
      DropIsNoted(initial, log, m, n, r);
    }
  }

  lemma DropIsNoted(initial: Db, log: seq<Commit>, m: nat, n: nat, r: Request)
    requires m <= n <= |log| && r in Replay(initial, log[..n]).requests && r !in Replay(initial, log).requests
    requires Removed(r.session) !in log[m..]
    ensures r.session in ResetSet(Replay(initial, log[..m]).epochs, Replay(initial, log).epochs)
  {
    hide Replay, RequestsOf;
    var a, b := Replay(initial, log[..m]), Replay(initial, log[..n]);
    SplitAt(initial, log, m, n);
    SplitAt(initial, log, n, |log|);
    assert log[m..] == log[m..n] + log[n..];
    ReplayEpoch(a, log[m..n], r.session);
    DroppedRowRaisesEpoch(b, log[n..], r);
  }
}
