/** Whose record lies in a capture's own directory. A stop may be told to write anywhere, also into the
    directory of a capture that has ended (cli/main.go:609-664, cli/record_proxify.go:69-106). */
module CaptureRecords {
  import opened Bytes
  import opened Captures
  import opened CaptureSessions
  import opened CaptureLifecycle
  import Archive

  /** The capture's own completed or abandoned metadata. */
  predicate OwnRecord(file: File, id: string) {
    Ended(file) && file.session.id == id
  }

  /** The capture is active, or its directory holds its own final record. */
  predicate Kept(disk: Disk, id: string) {
    Names(disk.active, id) || OwnRecord(MetaAt(disk, Home(disk.root, id)), id)
  }

  /** A stop of another capture that is told to write into this capture's directory, is not refused, and
      lives through its first write. */
  predicate WritesInto(w: World, step: Step, id: string) {
    && step.command.StopCapture? && Plan(w.disk, step.command) != [] && GetsThrough(step.fate, 1)
    && !Names(w.disk.active, id) && step.command.out == Home(w.disk.root, id)
  }

  predicate TakesOver(w: World, step: Step, id: string) {
    id in w.begun && WritesInto(w, step, id)
  }

  /** The metadata of a capture that is not active changes exactly by such a stop, and then into the
      other capture's. */
  lemma TakenOverOrFrozen(w: World, step: Step, id: string)
    requires Sound(w) && Atomic(step.fate) && FreshIn(w, step.command) && id in w.begun && !Names(w.disk.active, id)
    ensures
      var home := Home(w.disk.root, id);
      var before, after := MetaAt(w.disk, home), MetaAt(Outcome(w.disk, step.command, step.fate), home);
      if TakesOver(w, step, id) then after.Whole? && after.session.id == w.disk.active.session.id != id
      else after == before
  {
    hide Home, Settled;
    if step.command.StopCapture? {
      StopTakesOverOrNot(w.disk, step, id);
    } else {
      hide Outcome;
      MetadataIsFrozen(w.disk, step.command, step.fate, id);
    }
  }

  lemma StopTakesOverOrNot(disk: Disk, step: Step, id: string)
    requires LiveFile(disk.root, disk.active) && step.command.StopCapture? && !Names(disk.active, id)
    ensures
      var home, c := Home(disk.root, id), step.command;
      var before, after := MetaAt(disk, home), MetaAt(Outcome(disk, c, step.fate), home);
      if Plan(disk, c) != [] && GetsThrough(step.fate, 1) && c.out == home
      then after.Whole? && after.session.id == disk.active.session.id
      else after == before || (step.fate.Dies? && step.fate.tears)
  {
    ExecuteSteps(disk, Plan(disk, step.command), step.fate);
    if disk.active.Whole? {
      HomesDiffer(disk.root, disk.active.session.id, id);
    }
    HomesDiffer(disk.root, id, "");
    hide Home, Execute, Completes;
  }

  /** When a command ends a capture, the record in the capture's directory is its own. */
  lemma EndingIsOwn(disk: Disk, c: Command, fate: Fate, id: string)
    requires LiveFile(disk.root, disk.active) && Atomic(fate) && Names(disk.active, id)
    ensures Kept(Outcome(disk, c, fate), id)
  {
    ExecuteSteps(disk, Plan(disk, c), fate);
    HomesDiffer(disk.root, id, "");
    hide Home, Execute;
  }

  /** One step: a capture that is kept stays so unless it is taken over, and one that is not never is
      again. */
  lemma KeptNext(w: World, step: Step, id: string)
    requires Sound(w) && Atomic(step.fate) && FreshIn(w, step.command) && id in Next(w, step).begun
    ensures Kept(Next(w, step).disk, id) <==> (id in w.begun ==> Kept(w.disk, id)) && !TakesOver(w, step, id)
  {
    hide Home, Plan, Execute, MetaAt;
    ActiveAfter(w.disk, step.command, step.fate);
    if id in w.begun {
      if Names(w.disk.active, id) {
        EndingIsOwn(w.disk, step.command, step.fate, id);
      } else {
        TakenOverOrFrozen(w, step, id);
      }
    }
    hide Settled, LiveFile;
  }

  ghost predicate NeverTakenOver(w: World, steps: seq<Step>, id: string) {
    forall k | 0 <= k < |steps| :: !TakesOver(Run(w, steps[..k]), steps[k], id)
  }

  lemma NeverTakenOverNext(w: World, steps: seq<Step>, id: string)
    requires steps != []
    ensures
      var front := steps[..|steps| - 1];
      NeverTakenOver(w, steps, id)
      <==> NeverTakenOver(w, front, id) && !TakesOver(Run(w, front), steps[|steps| - 1], id)
  {
    hide TakesOver, Run;
    var front := steps[..|steps| - 1];
    assert forall k | 0 <= k < |front| :: steps[..k] == front[..k] && steps[k] == front[k];
  }

  /** Over every run with crashes between any file operations, a capture that has begun is still active or
      its directory holds its own final record, if and only if no stop has taken the directory over. */
  lemma {:induction false} OwnRecordIff(root: string, steps: seq<Step>, id: string)
    requires Fresh(FirstWorld(root), steps) && AllAtomic(steps) && id in Run(FirstWorld(root), steps).begun
    ensures Kept(Run(FirstWorld(root), steps).disk, id)
      <==> NeverTakenOver(FirstWorld(root), steps, id)
    decreases |steps|
  {
    hide Kept, TakesOver, Next, FreshIn, Sound, NeverTakenOver;
    NothingBegun(root);
    if steps != [] {
      var front, last := steps[..|steps| - 1], steps[|steps| - 1];
      var w := Run(FirstWorld(root), front);
      EveryRunIsSound(root, front);
      KeptNext(w, last, id);
      NeverTakenOverNext(FirstWorld(root), steps, id);
      if id in w.begun {
        OwnRecordIff(root, front, id);
      } else {
        NotTakenOverYet(root, front, id);
      }
    }
  }

  lemma NothingBegun(root: string)
    ensures Run(FirstWorld(root), []).begun == {}
  {
  }

  /** What has not begun has not been taken over. */
  lemma {:induction false} NotTakenOverYet(root: string, steps: seq<Step>, id: string)
    requires id !in Run(FirstWorld(root), steps).begun
    ensures NeverTakenOver(FirstWorld(root), steps, id)
    decreases |steps|
  {
    hide Outcome, Home, Plan, NeverTakenOver;
    if steps == [] {
      NeverInNoSteps(FirstWorld(root), id);
    } else {
      NotTakenOverYet(root, steps[..|steps| - 1], id);
      NeverTakenOverNext(FirstWorld(root), steps, id);
    }
  }

  lemma NeverInNoSteps(w: World, id: string)
    ensures NeverTakenOver(w, [], id)
  {
  }

  ghost predicate AllKept(w: World) {
    forall id | id in w.begun :: Kept(w.disk, id)
  }

  ghost predicate NoneTakenOver(w: World, steps: seq<Step>) {
    forall id :: NeverTakenOver(w, steps, id)
  }

  /** So all captures keep their own records exactly in the runs in which no stop takes a directory over. */
  lemma AllRecordsKeptIff(root: string, steps: seq<Step>)
    requires Fresh(FirstWorld(root), steps) && AllAtomic(steps)
    ensures AllKept(Run(FirstWorld(root), steps)) <==> NoneTakenOver(FirstWorld(root), steps)
  {
    hide *;
    forall id {
      RecordKeptIff(root, steps, id);
    }
    KeptAlike(Run(FirstWorld(root), steps), FirstWorld(root), steps);
  }

  predicate KeptIfBegun(w: World, id: string) {
    id in w.begun ==> Kept(w.disk, id)
  }

  lemma RecordKeptIff(root: string, steps: seq<Step>, id: string)
    requires Fresh(FirstWorld(root), steps) && AllAtomic(steps)
    ensures KeptIfBegun(Run(FirstWorld(root), steps), id) <==> NeverTakenOver(FirstWorld(root), steps, id)
  {
    hide Kept, NeverTakenOver, Run, Fresh, AllAtomic;
    if id in Run(FirstWorld(root), steps).begun {
      OwnRecordIff(root, steps, id);
    } else {
      NotTakenOverYet(root, steps, id);
    }
  }

  lemma KeptAlike(w: World, first: World, steps: seq<Step>)
    requires forall id :: KeptIfBegun(w, id) <==> NeverTakenOver(first, steps, id)
    ensures AllKept(w) <==> NoneTakenOver(first, steps)
  {
    hide Kept, NeverTakenOver;
    if AllKept(w) {
      forall id ensures NeverTakenOver(first, steps, id) {
        assert KeptIfBegun(w, id);
      }
    }
    if NoneTakenOver(first, steps) {
      forall id | id in w.begun ensures Kept(w.disk, id) {
        assert NeverTakenOver(first, steps, id) && KeptIfBegun(w, id);
      }
    }
  }

  lemma AtomicFront(steps: seq<Step>, last: Step)
    requires AllAtomic(steps + [last])
    ensures AllAtomic(steps) && Atomic(last.fate)
  {
    assert (steps + [last])[|steps|] == last;
    assert forall k | 0 <= k < |steps| :: steps[k] == (steps + [last])[k];
  }

  lemma FrozenNext(w: World, step: Step, id: string)
    requires Sound(w) && Atomic(step.fate) && FreshIn(w, step.command) && id in w.begun && !Names(w.disk.active, id)
    requires !TakesOver(w, step, id)
    ensures MetaAt(Next(w, step).disk, Home(w.disk.root, id)) == MetaAt(w.disk, Home(w.disk.root, id))
  {
    TakenOverOrFrozen(w, step, id);
    hide Outcome, MetaAt, Home;
  }

  /** After a capture has ended, its metadata stays exactly as it is until a stop takes it over. */
  lemma {:induction false} RecordIsFinal(root: string, steps: seq<Step>, later: seq<Step>, id: string)
    requires Fresh(FirstWorld(root), steps + later) && AllAtomic(steps + later)
    requires id in Run(FirstWorld(root), steps).begun && !Names(Run(FirstWorld(root), steps).disk.active, id)
    requires NeverTakenOver(Run(FirstWorld(root), steps), later, id)
    ensures MetaAt(Run(FirstWorld(root), steps + later).disk, Home(root, id))
      == MetaAt(Run(FirstWorld(root), steps).disk, Home(root, id))
    decreases |later|
  {
    hide Next, Home, MetaAt, TakesOver, FreshIn, Sound, NeverTakenOver, Run, Fresh, Ended;
    if later == [] {
      assert steps + later == steps;
    } else {
      var front, last := later[..|later| - 1], later[|later| - 1];
      assert steps + later == (steps + front) + [last];
      AtomicFront(steps + front, last);
      OneStep(FirstWorld(root), steps + front, last);
      RunAppend(FirstWorld(root), steps, front);
      NeverTakenOverNext(Run(FirstWorld(root), steps), later, id);
      RecordIsFinal(root, steps, front, id);
      EndedStaysEnded(root, steps, front, id);
      EveryRunIsSound(root, steps + front);
      FrozenNext(Run(FirstWorld(root), steps + front), last, id);
    }
  }

  /** Once the active file has stopped naming a capture it never names it again, and what lies in the
      capture's directory is its own final record as long as no stop has taken it over. */
  lemma EndedKeepsOwnRecordIff(root: string, steps: seq<Step>, later: seq<Step>, id: string)
    requires Fresh(FirstWorld(root), steps + later) && AllAtomic(steps + later)
    requires id in Run(FirstWorld(root), steps).begun && !Names(Run(FirstWorld(root), steps).disk.active, id)
    ensures
      var disk := Run(FirstWorld(root), steps + later).disk;
      && !Names(disk.active, id)
      && (OwnRecord(MetaAt(disk, Home(root, id)), id) <==> NeverTakenOver(FirstWorld(root), steps + later, id))
  {
    hide Run, Fresh, OwnRecord, NeverTakenOver, MetaAt, Home, Ended;
    EndedStaysEnded(root, steps, later, id);
    OwnRecordIff(root, steps + later, id);
  }

  // ----- captures that were started by half -----

  /** Metadata says that the capture is going on, and the active file does not name it: nothing can
      confirm, abandon or stop it. */
  predicate LeftBehind(disk: Disk, id: string) {
    var file := MetaAt(disk, Home(disk.root, id));
    file.Whole? && !Ended(file) && !Names(disk.active, id)
  }

  /** A Proxify start, not refused, that dies between its two writes. */
  predicate HalfStarts(w: World, step: Step, id: string) {
    && step.command.StartCapture? && step.command.id == id && step.command.engine == Proxify
    && Plan(w.disk, step.command) != [] && GetsThrough(step.fate, 1) && !GetsThrough(step.fate, 2)
  }

  lemma HalfStartOrNot(disk: Disk, step: Step, id: string)
    requires step.command.StartCapture? && step.command.id == id && Atomic(step.fate)
    requires LiveFile(disk.root, disk.active) && !Names(disk.active, id) && !LeftBehind(disk, id)
    ensures LeftBehind(Outcome(disk, step.command, step.fate), id) <==>
      && step.command.engine == Proxify && Plan(disk, step.command) != []
      && GetsThrough(step.fate, 1) && !GetsThrough(step.fate, 2)
  {
    HomesDiffer(disk.root, id, "");
    ExecuteSteps(disk, Plan(disk, step.command), step.fate);
    hide Home, Execute, Completes;
  }

  lemma StopWritesOver(disk: Disk, step: Step, id: string)
    requires LiveFile(disk.root, disk.active) && Atomic(step.fate)
    requires step.command.StopCapture? && !Names(disk.active, id)
    ensures
      var home := Home(disk.root, id);
      Plan(disk, step.command) != [] && GetsThrough(step.fate, 1) && step.command.out == home ==>
      Ended(MetaAt(Outcome(disk, step.command, step.fate), home))
  {
    ExecuteSteps(disk, Plan(disk, step.command), step.fate);
    if disk.active.Whole? {
      HomesDiffer(disk.root, disk.active.session.id, id);
    }
    HomesDiffer(disk.root, id, "");
    hide Home, Execute, Completes;
  }

  /** One step: a capture is left behind by being started by half, until some stop writes over its
      metadata. */
  lemma LeftBehindNext(w: World, step: Step, id: string)
    requires Sound(w) && Atomic(step.fate) && FreshIn(w, step.command) && (LeftBehind(w.disk, id) ==> id in w.issued)
    ensures LeftBehind(Next(w, step).disk, id) <==>
      HalfStarts(w, step, id) || (LeftBehind(w.disk, id) && !WritesInto(w, step, id))
    ensures LeftBehind(Next(w, step).disk, id) ==> id in Next(w, step).issued
  {
    SoundNext(w, step);
    ActiveAfter(w.disk, step.command, step.fate);
    hide Home, Execute, MetaAt, Outcome, Plan;
    if Names(w.disk.active, id) {
      assert id in w.begun && id in Next(w, step).begun;
      assert Settled(w.disk, id) && Settled(Next(w, step).disk, id);
    } else if step.command.StartCapture? && step.command.id == id {
      HalfStartOrNot(w.disk, step, id);
    } else {
      if step.command.StopCapture? {
        StopTakesOverOrNot(w.disk, step, id);
        StopWritesOver(w.disk, step, id);
      } else {
        MetadataIsFrozen(w.disk, step.command, step.fate, id);
      }
    }
  }

  /** Among the steps the capture was started by half, and no stop behind that writes over it. */
  ghost predicate HalfStartedIn(w: World, steps: seq<Step>, id: string) {
    exists k | 0 <= k < |steps| :: HalfStarts(Run(w, steps[..k]), steps[k], id) && NotOver(w, steps, k, id)
  }

  ghost predicate NotOver(w: World, steps: seq<Step>, k: nat, id: string) {
    forall j | k < j < |steps| :: !WritesInto(Run(w, steps[..j]), steps[j], id)
  }

  lemma NotOverNext(w: World, steps: seq<Step>, k: nat, id: string)
    requires k < |steps| - 1
    ensures
      var front, last := steps[..|steps| - 1], steps[|steps| - 1];
      NotOver(w, steps, k, id) <==> NotOver(w, front, k, id) && !WritesInto(Run(w, front), last, id)
    ensures steps[..k] == steps[..|steps| - 1][..k]
  {
    hide WritesInto, Run;
    var front := steps[..|steps| - 1];
    assert forall j | 0 <= j < |front| :: steps[..j] == front[..j] && steps[j] == front[j];
  }

  lemma HalfStartedNext(w: World, steps: seq<Step>, id: string)
    requires steps != []
    ensures
      var front, last := steps[..|steps| - 1], steps[|steps| - 1];
      HalfStartedIn(w, steps, id) <==>
        HalfStarts(Run(w, front), last, id) || (HalfStartedIn(w, front, id) && !WritesInto(Run(w, front), last, id))
  {
    hide HalfStarts, WritesInto, Run, NotOver;
    var n := |steps| - 1;
    var front, last := steps[..n], steps[n];
    if HalfStartedIn(w, steps, id) {
      var k :| 0 <= k < |steps| && HalfStarts(Run(w, steps[..k]), steps[k], id) && NotOver(w, steps, k, id);
      if k < n {
        NotOverNext(w, steps, k, id);
        assert HalfStarts(Run(w, front[..k]), front[k], id);
      }
    }
    if HalfStarts(Run(w, front), last, id) {
      assert HalfStarts(Run(w, steps[..n]), steps[n], id);
      assert NotOver(w, steps, n, id) by { NothingBehind(w, steps, id); }
    } else if HalfStartedIn(w, front, id) && !WritesInto(Run(w, front), last, id) {
      var k :| 0 <= k < n && HalfStarts(Run(w, front[..k]), front[k], id) && NotOver(w, front, k, id);
      NotOverNext(w, steps, k, id);
      assert HalfStarts(Run(w, steps[..k]), steps[k], id);
    }
  }

  lemma NothingBehind(w: World, steps: seq<Step>, id: string)
    requires steps != []
    ensures NotOver(w, steps, |steps| - 1, id)
  {
  }

  lemma NoneLeftBehind(root: string, id: string)
    ensures !LeftBehind(FirstWorld(root).disk, id) && !HalfStartedIn(FirstWorld(root), [], id)
  {
  }

  lemma NeverBegan(w: World, id: string)
    requires Sound(w) && LeftBehind(w.disk, id)
    ensures id !in w.begun
  {
    hide MetaAt, Home;
    assert id in w.begun ==> Settled(w.disk, id);
  }

  /** Over every run with crashes between any file operations: metadata says that a capture is going on
      while the active file does not name it if and only if its start died between its two writes and
      no stop has written over it since. Such a capture never began. */
  lemma {:induction false} LeftBehindIff(root: string, steps: seq<Step>, id: string)
    requires Fresh(FirstWorld(root), steps) && AllAtomic(steps)
    ensures LeftBehind(Run(FirstWorld(root), steps).disk, id) <==> HalfStartedIn(FirstWorld(root), steps, id)
    ensures LeftBehind(Run(FirstWorld(root), steps).disk, id) ==>
      var w := Run(FirstWorld(root), steps);
      id in w.issued && id !in w.begun
    decreases |steps|
  {
    EveryRunIsSound(root, steps);
    if LeftBehind(Run(FirstWorld(root), steps).disk, id) {
      NeverBegan(Run(FirstWorld(root), steps), id);
    }
    hide LeftBehind, HalfStartedIn, WritesInto, HalfStarts, Next, FreshIn, Sound;
    if steps == [] {
      NoneLeftBehind(root, id);
    } else {
      var front, last := steps[..|steps| - 1], steps[|steps| - 1];
      LeftBehindIff(root, front, id);
      EveryRunIsSound(root, front);
      LeftBehindNext(Run(FirstWorld(root), front), last, id);
      HalfStartedNext(FirstWorld(root), steps, id);
    }
  }

  /** It does happen. */
  lemma HalfStartLeavesBehind(root: string)
    ensures
      var w := Next(FirstWorld(root), Step(ExampleStart("a"), Dies(1, false)));
      && LeftBehind(w.disk, "a") && w.begun == {}
      && MetaAt(w.disk, Home(root, "a")) == Whole(NewSession(root, ExampleStart("a")))
  {
    HomesDiffer(root, "a", "");
    ExecuteSteps(FirstWorld(root).disk, Plan(FirstWorld(root).disk, ExampleStart("a")), Dies(1, false));
    hide Home, Execute;
  }

  // ----- what the final record says -----

  /** A stop that is carried out leaves the same final record where it was told to write and in the capture's
      own directory: completed, at this time, with the two counts that the export gave for a Proxify
      capture, and everything else as it was. */
  lemma StopRecords(disk: Disk, c: Command, fate: Fate, dir: string)
    requires LiveFile(disk.root, disk.active) && c.StopCapture? && Succeeds(disk, c, fate)
    requires dir == disk.active.session.dir || (dir == c.out && dir != "")
    ensures
      var s, file := disk.active.session, MetaAt(Outcome(disk, c, fate), dir);
      && file.Whole? && Outcome(disk, c, fate).active == Absent && c.exported.Some?
      && var t := file.session;
      && t.status == Completed && t.stoppedMS == c.nowMS && t.dir == (if c.out == "" then s.dir else c.out)
      && (if s.engine == Proxify then (t.requestCount, t.skippedCount) == c.exported.value
          else t.requestCount == s.requestCount && t.skippedCount == s.skippedCount)
      && t == s.(status := t.status, stoppedMS := t.stoppedMS, dir := t.dir,
                 requestCount := t.requestCount, skippedCount := t.skippedCount)
  {
    ExecuteSteps(disk, Plan(disk, c), fate);
    if disk.active.Whole? {
      HomesDiffer(disk.root, disk.active.session.id, "");
    }
    hide Home, Execute, Completes;
  }

  /** For a Proxify capture these are the number of records in its archive, and the number of the other
      pieces of the running proxy's file, between the offsets, that are not blank. */
  lemma StopCountsTheArchive(
    disk: Disk, c: Command, fate: Fate, source: seq<Byte>, startOffset: nat, endOffset: nat,
    limits: Archive.Limits, parse: Parser)
    requires LiveFile(disk.root, disk.active) && c.StopCapture? && Succeeds(disk, c, fate)
    requires disk.active.session.engine == Proxify
    requires startOffset <= endOffset && startOffset <= |source|
    requires
      var extract := Archive.Specified(source, startOffset, endOffset, limits, parse).extract;
      c.exported == Some((extract.count, extract.skipped))
    ensures
      var pieces := Archive.Pieces(Archive.Upto(source, endOffset), startOffset);
      var file := MetaAt(Outcome(disk, c, fate), disk.active.session.dir);
      && file.Whole?
      && file.session.requestCount == Archive.KeptPieces(pieces, limits, parse)
      && file.session.requestCount + file.session.skippedCount == Archive.Filled(pieces)
  {
    hide Outcome, Completes, Home, Archive.Pieces, Archive.TakeAll, Archive.KeptPieces, Archive.Filled;
    StopRecords(disk, c, fate, disk.active.session.dir);
    Archive.TakeAllCounts(Archive.Extract([], 0, 0), Archive.Pieces(Archive.Upto(source, endOffset), startOffset),
      limits, parse);
  }

  // ----- a run in which a record is lost -----

  function ExampleAbandon(id: string): Command {
    AbandonCapture(id, true, 2)
  }

  lemma AbandonHere(disk: Disk, id: string)
    requires Names(disk.active, id) && disk.active.session.engine == Proxify
    requires disk.active.session.dir == Home(disk.root, id)
    ensures
      var t := disk.active.session.(status := Abandoned, stoppedMS := 2);
      Outcome(disk, ExampleAbandon(id), Survives)
        == disk.(active := Absent, meta := disk.meta[Home(disk.root, id) := Whole(t)])
  {
    HomesDiffer(disk.root, id, "");
    ExecuteSteps(disk, Plan(disk, ExampleAbandon(id)), Survives);
    hide Home, Execute;
  }

  lemma StopThere(disk: Disk, out: string)
    requires disk.active.Whole? && disk.active.session.engine == Proxify
    requires disk.active.session.dir != "" && out != "" && out != disk.active.session.dir
    ensures
      var stop := StopCapture(out, Some((0, 0)), 2);
      var t := StoppedSession(disk.active.session, stop);
      Outcome(disk, stop, Survives)
        == disk.(active := Absent, meta := disk.meta[out := Whole(t)][disk.active.session.dir := Whole(t)])
  {
    ExecuteSteps(disk, Plan(disk, StopCapture(out, Some((0, 0)), 2)), Survives);
    hide Execute;
  }

  /** Start `a`, abandon it, start `b`, and stop `b` into the directory of `a`: the record of `a` is
      gone, there and everywhere else. */
  lemma StopCanOverwriteAnother(root: string)
    ensures
      var before := Next(Next(Next(FirstWorld(root),
        Step(ExampleStart("a"), Survives)), Step(ExampleAbandon("a"), Survives)), Step(ExampleStart("b"), Survives));
      var stop := Step(StopCapture(Home(root, "a"), Some((0, 0)), 2), Survives);
      var after := Next(before, stop);
      && OwnRecord(MetaAt(before.disk, Home(root, "a")), "a") && TakesOver(before, stop, "a")
      && OwnRecord(MetaAt(after.disk, Home(root, "a")), "b") && "a" in after.begun
      && forall dir | dir in after.disk.meta :: !Names(after.disk.meta[dir], "a")
  {
    HomesDiffer(root, "a", "b");
    HomesDiffer(root, "b", "");
    var w1 := Next(FirstWorld(root), Step(ExampleStart("a"), Survives));
    StartFromNothing(FirstWorld(root).disk, "a");
    AbandonHere(w1.disk, "a");
    var w2 := Next(w1, Step(ExampleAbandon("a"), Survives));
    StartFromNothing(w2.disk, "b");
    var w3 := Next(w2, Step(ExampleStart("b"), Survives));
    StopThere(w3.disk, Home(root, "a"));
    hide Home, Outcome;
  }
}
