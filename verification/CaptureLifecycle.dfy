/** What holds in every run of capture commands, whoever issues them and wherever processes die. */
module CaptureLifecycle {
  import opened Captures
  import opened CaptureSessions

  /** The disk, the capture ids given out so far, and those the active file has named at some time. */
  datatype World = World(disk: Disk, issued: set<string>, begun: set<string>)

  datatype Step = Step(command: Command, fate: Fate)

  /** Capture ids are made of the time and random digits; they are taken to be new. */
  predicate FreshIn(w: World, c: Command) {
    c.StartCapture? ==> c.id !in w.issued
  }

  function Named(file: File): set<string> {
    if file.Whole? then {file.session.id} else {}
  }

  function Next(w: World, step: Step): World {
    var disk := Outcome(w.disk, step.command, step.fate);
    World(disk, w.issued + (if step.command.StartCapture? then {step.command.id} else {}), w.begun + Named(disk.active))
  }

  function Run(w: World, steps: seq<Step>): World {
    if steps == [] then w else Next(Run(w, steps[..|steps| - 1]), steps[|steps| - 1])
  }

  predicate Fresh(w: World, steps: seq<Step>) {
    steps == [] ||
    (Fresh(w, steps[..|steps| - 1]) && FreshIn(Run(w, steps[..|steps| - 1]), steps[|steps| - 1].command))
  }

  function FirstWorld(root: string): World {
    World(Disk(root, Absent, map[]), {}, {})
  }

  /** Every file is either written in full or not at all. */
  predicate Atomic(fate: Fate) {
    fate.Dies? ==> !fate.tears
  }

  predicate AllAtomic(steps: seq<Step>) {
    forall k | 0 <= k < |steps| :: Atomic(steps[k].fate)
  }

  // ----- the invariant -----

  /** A capture in the active file has an engine, has not been stopped and lives in its own directory. */
  predicate LiveFile(root: string, file: File) {
    file.Whole? ==>
      && file.session.engine != OtherEngine
      && file.session.stoppedMS == 0
      && (file.session.status == Recording || file.session.status == Starting)
      && file.session.dir == Home(root, file.session.id)
  }

  predicate Settled(disk: Disk, id: string) {
    Names(disk.active, id) || Ended(MetaAt(disk, Home(disk.root, id)))
  }

  ghost predicate Sound(w: World) {
    && LiveFile(w.disk.root, w.disk.active)
    && w.disk.active != Torn
    && Named(w.disk.active) <= w.begun <= w.issued
    && forall id | id in w.begun :: Settled(w.disk, id)
  }

  lemma HomesDiffer(root: string, a: string, b: string)
    ensures Home(root, a) == Home(root, b) <==> a == b
    ensures Home(root, a) != ""
  {
    var prefix := root + "/";
    assert (prefix + a)[|prefix|..] == a && (prefix + b)[|prefix|..] == b;
  }

  /** What a command can do to the disk, where no file is torn: the active file is as before, or
      absent, or names the command's own capture; the root never changes. */
  lemma ActiveAfter(disk: Disk, c: Command, fate: Fate)
    requires Atomic(fate)
    ensures
      var after := Outcome(disk, c, fate);
      && after.root == disk.root
      && (after.active == disk.active
          || (after.active == Absent && (c.StopCapture? || c.AbandonCapture?))
          || (c.StartCapture? && c.engine != OtherEngine && after.active == Whole(NewSession(disk.root, c)))
          || (c.MarkCapture? && Names(disk.active, c.id)
            && after.active == Whole(MarkedSession(disk.active.session, c))))
  {
    ExecuteSteps(disk, Plan(disk, c), fate);
  }

  lemma SoundActive(w: World, step: Step)
    requires Sound(w) && Atomic(step.fate)
    ensures LiveFile(w.disk.root, Outcome(w.disk, step.command, step.fate).active)
    ensures Outcome(w.disk, step.command, step.fate).active != Torn
    ensures Named(Outcome(w.disk, step.command, step.fate).active) <= Next(w, step).issued
  {
    ActiveAfter(w.disk, step.command, step.fate);
    hide Outcome, Home;
  }

  /** Metadata of a capture that is not active: only a stop that was told to write there changes it,
      and then to a completed capture. */
  lemma MetadataIsFrozen(disk: Disk, c: Command, fate: Fate, id: string)
    requires LiveFile(disk.root, disk.active) && Atomic(fate) && !Names(disk.active, id)
    requires c.StartCapture? ==> c.id != id
    ensures
      var home := Home(disk.root, id);
      var before, after := MetaAt(disk, home), MetaAt(Outcome(disk, c, fate), home);
      after == before || (c.StopCapture? && c.out == home && after.Whole? && after.session.status == Completed)
  {
    ExecuteSteps(disk, Plan(disk, c), fate);
    if c.StartCapture? {
      HomesDiffer(disk.root, c.id, id);
    }
    if disk.active.Whole? {
      HomesDiffer(disk.root, disk.active.session.id, id);
    }
    hide Home, Execute;
  }

  /** When a command empties the active file, the capture's own metadata says that it has ended. */
  lemma EndingIsRecorded(disk: Disk, c: Command, fate: Fate, id: string)
    requires LiveFile(disk.root, disk.active) && Atomic(fate) && Names(disk.active, id)
    ensures Settled(Outcome(disk, c, fate), id)
  {
    ExecuteSteps(disk, Plan(disk, c), fate);
    HomesDiffer(disk.root, id, "");
    hide Home, Execute;
  }

  lemma SoundNext(w: World, step: Step)
    requires Sound(w) && Atomic(step.fate) && FreshIn(w, step.command)
    ensures Sound(Next(w, step))
  {
    SoundActive(w, step);
    ActiveAfter(w.disk, step.command, step.fate);
    hide Outcome, Home, MetaAt;
    forall id | id in Next(w, step).begun ensures Settled(Next(w, step).disk, id) {
      SettledNext(w, step, id);
    }
  }

  lemma SettledNext(w: World, step: Step, id: string)
    requires Sound(w) && Atomic(step.fate) && FreshIn(w, step.command) && id in Next(w, step).begun
    ensures Settled(Next(w, step).disk, id)
  {
    hide Outcome, Home, MetaAt;
    ActiveAfter(w.disk, step.command, step.fate);
    if id in w.begun {
      if Names(w.disk.active, id) {
        EndingIsRecorded(w.disk, step.command, step.fate, id);
      } else {
        MetadataIsFrozen(w.disk, step.command, step.fate, id);
      }
    }
  }

  /** In every run with crashes anywhere between file operations: the active file is never unreadable,
      and every capture it ever named is named by it still or has completed or abandoned metadata. */
  lemma {:induction false} EveryRunIsSound(root: string, steps: seq<Step>)
    requires Fresh(FirstWorld(root), steps) && AllAtomic(steps)
    ensures Sound(Run(FirstWorld(root), steps))
    decreases |steps|
  {
    hide Outcome, Home, Settled;
    if steps != [] {
      EveryRunIsSound(root, steps[..|steps| - 1]);
      SoundNext(Run(FirstWorld(root), steps[..|steps| - 1]), steps[|steps| - 1]);
    }
  }

  // ----- start never overwrites -----

  /** A start that gets past the checks of its engine changes the active file only where it could not
      be read as a capture that is still running. */
  lemma StartOverwritesIff(disk: Disk, c: Command)
    requires c.StartCapture? && c.ready && c.engine != OtherEngine && LiveFile(disk.root, disk.active)
    requires !Names(disk.active, c.id)
    ensures Outcome(disk, c, Survives).active == Whole(NewSession(disk.root, c)) <==> !disk.active.Whole?
    ensures disk.active.Whole? ==> forall fate :: Outcome(disk, c, fate) == disk
  {
    HomesDiffer(disk.root, c.id, "");
    ExecuteSteps(disk, Plan(disk, c), Survives);
    if disk.active.Whole? {
      forall fate ensures Outcome(disk, c, fate) == disk {
        ExecuteSteps(disk, Plan(disk, c), fate);
      }
    }
    hide Home, Execute;
  }

  /** So in every run a start leaves everything as it was while another capture is active. */
  lemma StartNeverOverwrites(root: string, steps: seq<Step>, start: Step)
    requires Fresh(FirstWorld(root), steps + [start]) && AllAtomic(steps) && start.command.StartCapture?
    ensures
      var w := Run(FirstWorld(root), steps);
      w.disk.active != Absent ==> Next(w, start).disk == w.disk
  {
    hide Outcome, Home, Settled;
    SoundBefore(root, steps, start);
    var w := Run(FirstWorld(root), steps);
    if w.disk.active != Absent {
      StartRefused(w.disk, start.command, start.fate);
    }
  }

  lemma SoundBefore(root: string, steps: seq<Step>, last: Step)
    requires Fresh(FirstWorld(root), steps + [last]) && AllAtomic(steps)
    ensures Sound(Run(FirstWorld(root), steps)) && FreshIn(Run(FirstWorld(root), steps), last.command)
  {
    hide Outcome, Run, Sound;
    assert (steps + [last])[..|steps + [last]| - 1] == steps;
    EveryRunIsSound(root, steps);
  }

  lemma StartRefused(disk: Disk, c: Command, fate: Fate)
    requires c.StartCapture? && disk.active.Whole? && disk.active.session.stoppedMS == 0
    ensures Outcome(disk, c, fate) == disk
  {
  }

  function ExampleStart(id: string): Command {
    StartCapture(Proxify, id, true, 1, true, "")
  }

  /** Without atomic writes it can happen: a process dies in the middle of rewriting the active file,
      the next start takes the unreadable file for no capture at all, and the first capture is left
      behind with metadata that says it is still recording. */
  lemma TornFileLosesACapture(root: string)
    ensures
      var steps := [Step(ExampleStart("a"), Survives), Step(MarkCapture("a", true), Dies(0, true)),
        Step(ExampleStart("b"), Survives)];
      var w := Run(FirstWorld(root), steps);
      && Fresh(FirstWorld(root), steps)
      && Names(w.disk.active, "b") && "a" in w.begun
      && MetaAt(w.disk, Home(root, "a")) == Whole(NewSession(root, ExampleStart("a")))
  {
    var first := Step(ExampleStart("a"), Survives);
    var mark := Step(MarkCapture("a", true), Dies(0, true));
    var second := Step(ExampleStart("b"), Survives);
    var w1 := Next(FirstWorld(root), first);
    ThreeSteps(FirstWorld(root), first, mark, second);
    StartFromNothing(FirstWorld(root).disk, "a");
    MarkTorn(w1.disk, "a");
    StartFromNothing(Next(w1, mark).disk, "b");
    HomesDiffer(root, "a", "b");
    hide Home, Outcome, Run, Fresh;
  }

  lemma StartFromNothing(disk: Disk, id: string)
    requires !disk.active.Whole?
    ensures
      var s := NewSession(disk.root, ExampleStart(id));
      Outcome(disk, ExampleStart(id), Survives)
        == disk.(active := Whole(s), meta := disk.meta[Home(disk.root, id) := Whole(s)])
  {
    HomesDiffer(disk.root, id, "");
    ExecuteSteps(disk, Plan(disk, ExampleStart(id)), Survives);
    hide Home, Execute;
  }

  lemma MarkTorn(disk: Disk, id: string)
    requires Names(disk.active, id)
    ensures Outcome(disk, MarkCapture(id, true), Dies(0, true)) == disk.(active := Torn)
  {
    ExecuteSteps(disk, Plan(disk, MarkCapture(id, true)), Dies(0, true));
    hide Execute;
  }

  lemma ThreeSteps(w: World, a: Step, b: Step, c: Step)
    ensures Run(w, [a, b, c]) == Next(Next(Next(w, a), b), c)
    ensures FreshIn(w, a.command) && FreshIn(Next(w, a), b.command) && FreshIn(Next(Next(w, a), b), c.command)
      ==> Fresh(w, [a, b, c])
  {
    hide Next, FreshIn;
    OneStep(w, [], a);
    OneStep(w, [a], b);
    OneStep(w, [a, b], c);
    hide Run, Fresh;
    assert [] + [a] == [a] && [a] + [b] == [a, b] && [a, b] + [c] == [a, b, c];
    assert Run(w, []) == w && Fresh(w, []) by { NoSteps(w); }
  }

  lemma NoSteps(w: World)
    ensures Run(w, []) == w && Fresh(w, [])
  {
  }

  lemma OneStep(w: World, steps: seq<Step>, last: Step)
    ensures Run(w, steps + [last]) == Next(Run(w, steps), last)
    ensures Fresh(w, steps + [last]) <==> Fresh(w, steps) && FreshIn(Run(w, steps), last.command)
  {
    hide Next, FreshIn;
    assert (steps + [last])[..|steps + [last]| - 1] == steps;
  }

  // ----- an ended capture stays ended -----

  lemma {:induction false} RunAppend(w: World, a: seq<Step>, b: seq<Step>)
    ensures Run(w, a + b) == Run(Run(w, a), b)
    ensures Fresh(w, a + b) <==> Fresh(w, a) && Fresh(Run(w, a), b)
    decreases |b|
  {
    hide Next, FreshIn;
    if b == [] {
      assert a + b == a;
    } else {
      RunAppend(w, a, b[..|b| - 1]);
      assert (a + b)[..|a + b| - 1] == a + b[..|b| - 1];
    }
  }

  lemma NextNames(w: World, step: Step)
    requires Sound(w) && Atomic(step.fate)
    ensures Named(Next(w, step).disk.active) <= Named(w.disk.active)
      + (if step.command.StartCapture? then {step.command.id} else {})
  {
    ActiveAfter(w.disk, step.command, step.fate);
    hide Outcome, Home;
  }

  /** Once the active file has stopped naming a capture, it never names it again, and the capture's
      metadata stays completed or abandoned. */
  lemma {:induction false} EndedStaysEnded(root: string, steps: seq<Step>, later: seq<Step>, id: string)
    requires Fresh(FirstWorld(root), steps + later) && AllAtomic(steps + later)
    requires id in Run(FirstWorld(root), steps).begun && !Names(Run(FirstWorld(root), steps).disk.active, id)
    ensures
      var w := Run(FirstWorld(root), steps + later);
      && w.disk.root == root && id in w.begun
      && !Names(w.disk.active, id) && Ended(MetaAt(w.disk, Home(root, id)))
    decreases |later|
  {
    hide Outcome, Home, MetaAt, Settled;
    EveryRunIsSound(root, steps + later);
    RootStays(root, steps + later);
    if later == [] {
      assert steps + later == steps;
    } else {
      var front, last := later[..|later| - 1], later[|later| - 1];
      assert (steps + later)[..|steps + later| - 1] == steps + front;
      assert AllAtomic(steps + front);
      EndedStaysEnded(root, steps, front, id);
      EveryRunIsSound(root, steps + front);
      NextNames(Run(FirstWorld(root), steps + front), last);
    }
    EndedUnlessNamed(Run(FirstWorld(root), steps + later), id);
  }

  lemma EndedUnlessNamed(w: World, id: string)
    requires Sound(w) && id in w.begun && !Names(w.disk.active, id)
    ensures Ended(MetaAt(w.disk, Home(w.disk.root, id)))
  {
    assert Settled(w.disk, id);
  }

  lemma {:induction false} RootStays(root: string, steps: seq<Step>)
    requires AllAtomic(steps)
    ensures Run(FirstWorld(root), steps).disk.root == root
    decreases |steps|
  {
    hide Outcome;
    if steps != [] {
      RootStays(root, steps[..|steps| - 1]);
      ActiveAfter(Run(FirstWorld(root), steps[..|steps| - 1]).disk, steps[|steps| - 1].command,
        steps[|steps| - 1].fate);
    }
  }

  // ----- requests from the phone -----

  /** Confirming and abandoning compare the id with the lock held: whatever else goes on, they leave the
      active file alone when it names another capture, and touch no directory but their own capture's. */
  lemma OtherCapturesAreSafe(w: World, c: Command, fate: Fate, dir: string)
    requires Sound(w) && (c.AbandonCapture? || c.MarkCapture?) && dir != Home(w.disk.root, c.id)
    ensures MetaAt(Outcome(w.disk, c, fate), dir) == MetaAt(w.disk, dir)
    ensures !Names(w.disk.active, c.id) ==> Outcome(w.disk, c, fate) == w.disk
  {
    ExecuteSteps(w.disk, Plan(w.disk, c), fate);
    hide Home, Execute, Settled;
  }

  /** Stopping from the phone: the id is compared before the lock is taken, and the stop itself ends
      whatever is active by then. Other commands run in between. */
  function PhoneStop(w: World, id: string, between: seq<Step>, stop: Step): World {
    if Names(w.disk.active, id) then Next(Run(w, between), stop) else Run(w, between)
  }

  predicate Stops(stop: Step) {
    stop.command.StopCapture? && stop.command.exported.Some? && stop.fate == Survives
  }

  predicate SomeOtherEnded(before: World, after: World, id: string) {
    before.disk.active.Whole? && before.disk.active.session.id != id && !after.disk.active.Whole?
  }

  lemma StopClears(disk: Disk, stop: Step)
    requires Stops(stop) && disk.active.Whole? && LiveFile(disk.root, disk.active)
    ensures Outcome(disk, stop.command, stop.fate).active == Absent
  {
    HomesDiffer(disk.root, disk.active.session.id, "");
    ExecuteSteps(disk, Plan(disk, stop.command), Survives);
    hide Home, Execute;
  }

  /** A start that gets through: not refused, and its process lives to write the active file. */
  predicate StartTakes(w: World, step: Step) {
    && step.command.StartCapture? && Plan(w.disk, step.command) != []
    && GetsThrough(step.fate, if step.command.engine == Proxify then 2 else 1)
  }

  /** A stop or an abandon that gets through, to clearing the active file. */
  predicate EndTakes(w: World, step: Step) {
    (step.command.StopCapture? || step.command.AbandonCapture?) && Succeeds(w.disk, step.command, step.fate)
  }

  /** Only these two change whom the active file names. */
  lemma NamedNext(w: World, step: Step)
    requires LiveFile(w.disk.root, w.disk.active) && Atomic(step.fate)
    ensures Named(Next(w, step).disk.active) ==
      if StartTakes(w, step) then {step.command.id} else if EndTakes(w, step) then {} else Named(w.disk.active)
  {
    if step.command.StartCapture? {
      HomesDiffer(w.disk.root, step.command.id, "");
    } else if w.disk.active.Whole? {
      HomesDiffer(w.disk.root, w.disk.active.session.id, "");
    }
    ExecuteSteps(w.disk, Plan(w.disk, step.command), step.fate);
    hide Home, Execute, Completes;
  }

  /** Among the steps there is a start that gets through, and no stop or abandon behind it does. */
  ghost predicate StartedAndNotEnded(w: World, steps: seq<Step>) {
    exists k | 0 <= k < |steps| ::
      && StartTakes(Run(w, steps[..k]), steps[k])
      && forall j | k < j < |steps| :: !EndTakes(Run(w, steps[..j]), steps[j])
  }

  lemma StartedNext(w: World, steps: seq<Step>)
    requires steps != []
    ensures
      var front, last := steps[..|steps| - 1], steps[|steps| - 1];
      StartedAndNotEnded(w, steps)
      <==> StartTakes(Run(w, front), last) || (StartedAndNotEnded(w, front) && !EndTakes(Run(w, front), last))
  {
    hide StartTakes, EndTakes, Run;
    var n := |steps| - 1;
    var front, last := steps[..n], steps[n];
    assert forall k | 0 <= k < n :: steps[..k] == front[..k] && steps[k] == front[k];
    if StartedAndNotEnded(w, steps) {
      var k :| 0 <= k < |steps| && StartTakes(Run(w, steps[..k]), steps[k])
        && forall j | k < j < |steps| :: !EndTakes(Run(w, steps[..j]), steps[j]);
      if k < n {
        assert StartTakes(Run(w, front[..k]), front[k]);
        assert !EndTakes(Run(w, steps[..n]), steps[n]);
      }
    }
    if StartTakes(Run(w, front), last) {
      assert StartTakes(Run(w, steps[..n]), steps[n]);
    } else if StartedAndNotEnded(w, front) && !EndTakes(Run(w, front), last) {
      var k :| 0 <= k < n && StartTakes(Run(w, front[..k]), front[k])
        && forall j | k < j < n :: !EndTakes(Run(w, front[..j]), front[j]);
      assert StartTakes(Run(w, steps[..k]), steps[k]);
      forall j | k < j < |steps| ensures !EndTakes(Run(w, steps[..j]), steps[j]) {
        assert j < n ==> steps[..j] == front[..j] && steps[j] == front[j];
      }
    }
  }

  lemma {:induction false} AnotherIsNamedIff(w: World, between: seq<Step>, id: string)
    requires Sound(w) && Names(w.disk.active, id) && Fresh(w, between) && AllAtomic(between)
    ensures Sound(Run(w, between)) && id in Run(w, between).begun
    ensures Named(Run(w, between).disk.active) - {id} != {} <==> StartedAndNotEnded(w, between)
    ensures StartedAndNotEnded(w, between) ==> id !in Named(Run(w, between).disk.active)
    decreases |between|
  {
    hide Outcome, Home, Settled, LiveFile, StartTakes, EndTakes, StartedAndNotEnded;
    if between == [] {
      NotStarted(w);
    } else {
      var front, last := between[..|between| - 1], between[|between| - 1];
      AnotherIsNamedIff(w, front, id);
      SoundNext(Run(w, front), last);
      NamedNext(Run(w, front), last);
      StartedNext(w, between);
      StartIsNew(Run(w, front), last, id);
      hide Sound, Run, Fresh;
    }
  }

  lemma NotStarted(w: World)
    ensures !StartedAndNotEnded(w, [])
  {
  }

  lemma StartIsNew(w: World, step: Step, id: string)
    requires Sound(w) && id in w.begun && FreshIn(w, step.command)
    ensures StartTakes(w, step) ==> step.command.id != id
  {
    hide Plan;
  }

  /** Such a stop ends a capture it was not asked to end exactly when, between its look and its lock, a
      start got through that no stop or abandon behind it ended. */
  lemma PhoneStopHitsAnotherIff(w: World, id: string, between: seq<Step>, stop: Step)
    requires Sound(w) && Names(w.disk.active, id) && Fresh(w, between) && AllAtomic(between) && Stops(stop)
    ensures SomeOtherEnded(Run(w, between), PhoneStop(w, id, between, stop), id) <==> StartedAndNotEnded(w, between)
  {
    hide Outcome, Run, Home, Settled, StartedAndNotEnded, Fresh;
    AnotherIsNamedIff(w, between, id);
    var mid := Run(w, between);
    if mid.disk.active.Whole? {
      StopClears(mid.disk, stop);
      assert mid.disk.active.session.id != id ==> mid.disk.active.session.id in Named(mid.disk.active) - {id};
    }
  }

  function ExampleStop(): Command {
    StopCapture("", Some((0, 0)), 2)
  }

  /** It does happen: the phone asks to stop `a`; before its stop gets the lock, `a` is stopped from the
      command line and `b` is started; the phone's stop then ends `b`. */
  lemma PhoneStopCanHitAnother(root: string)
    ensures
      var w := Next(FirstWorld(root), Step(ExampleStart("a"), Survives));
      var between := [Step(ExampleStop(), Survives), Step(ExampleStart("b"), Survives)];
      && Names(w.disk.active, "a")
      && Names(Run(w, between).disk.active, "b")
      && PhoneStop(w, "a", between, Step(ExampleStop(), Survives)).disk.active == Absent
  {
    var start, stop, again := Step(ExampleStart("a"), Survives), Step(ExampleStop(), Survives),
      Step(ExampleStart("b"), Survives);
    var w1 := Next(FirstWorld(root), start);
    StartFromNothing(FirstWorld(root).disk, "a");
    StopClears(w1.disk, stop);
    StartFromNothing(Next(w1, stop).disk, "b");
    StopClears(Next(Next(w1, stop), again).disk, stop);
    NoSteps(w1);
    OneStep(w1, [], stop);
    OneStep(w1, [stop], again);
    assert [] + [stop] == [stop] && [stop] + [again] == [stop, again];
    RootKept(FirstWorld(root).disk, start.command);
    RootKept(w1.disk, stop.command);
    hide Home, Outcome, Run;
  }

  lemma RootKept(disk: Disk, c: Command)
    ensures Outcome(disk, c, Survives).root == disk.root
  {
    ActiveAfter(disk, c, Survives);
    hide Outcome;
  }
}
