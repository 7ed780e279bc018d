/** The life of captures across commands, processes and crashes (cli/session_manager.go:21-93,
    cli/main.go:485-667 and 718-774, cli/record_proxify.go:19-121). */
module CaptureSessions {
  import opened Captures

  datatype Engine = Proxify | Charles | OtherEngine

  datatype Status = Recording | Starting | Completed | Abandoned

  /** `proxyKnown`: a proxy host and port are stored. `remainder` stands for the fields nothing here looks at. */
  datatype Session = Session(
    id: string, engine: Engine, status: Status, startedMS: int, stoppedMS: int, dir: string,
    proxyKnown: bool, requestCount: nat, skippedCount: nat, remainder: string)

  /** A state file: missing, cut short by a crash while it was written, or readable. */
  datatype File = Absent | Torn | Whole(session: Session)

  /** The sessions root, active-session.json, and meta.json by directory. */
  datatype Disk = Disk(root: string, active: File, meta: map<string, File>)

  datatype Write = WriteActive(session: Session) | WriteMeta(dir: string, session: Session) | ClearActive

  /** How far a process gets: to its end, or through so many file operations; it may then leave the
      next file torn. An operation that the system refuses counts as the end too, since every
      command returns at its first error. */
  datatype Fate = Survives | Dies(after: nat, tears: bool)

  datatype Command =
    | StartCapture(engine: Engine, id: string, ready: bool, nowMS: int, proxyKnown: bool, details: string)
    | StopCapture(out: string, exported: Option<(nat, nat)>, nowMS: int)
    | AbandonCapture(id: string, charlesStops: bool, nowMS: int)
    | MarkCapture(id: string, starting: bool)

  function Home(root: string, id: string): string {
    root + "/" + id
  }

  predicate Names(file: File, id: string) {
    file.Whole? && file.session.id == id
  }

  predicate Ended(file: File) {
    file.Whole? && (file.session.status == Completed || file.session.status == Abandoned)
  }

  function MetaAt(disk: Disk, dir: string): File {
    if dir in disk.meta then disk.meta[dir] else Absent
  }

  // ----- one file operation -----

  function Perform(disk: Disk, w: Write): Disk {
    match w
    case WriteActive(s) => disk.(active := Whole(s))
    case WriteMeta(dir, s) => disk.(meta := disk.meta[dir := Whole(s)])
    case ClearActive => disk.(active := Absent)
  }

  function Tear(disk: Disk, w: Write): Disk {
    match w
    case WriteActive(_) => disk.(active := Torn)
    case WriteMeta(dir, _) => disk.(meta := disk.meta[dir := Torn])
    case ClearActive => disk
  }

  /** Whether the operation was done, what the disk is then, and what is left of the fate. */
  function Attempt(disk: Disk, w: Write, fate: Fate): (bool, Disk, Fate) {
    if w.WriteMeta? && w.dir == "" then (false, disk, fate)
    else
      match fate
      case Survives => (true, Perform(disk, w), Survives)
      case Dies(after, tears) =>
        if after == 0 then (false, if tears then Tear(disk, w) else disk, fate)
        else (true, Perform(disk, w), Dies(after - 1, tears))
  }

  /** The process lives through its first n file operations. */
  predicate GetsThrough(fate: Fate, n: nat) {
    fate.Survives? || fate.after >= n
  }

  function Execute(disk: Disk, plan: seq<Write>, fate: Fate): Disk
    decreases |plan|
  {
    if plan == [] then disk
    else
      var (ok, next, left) := Attempt(disk, plan[0], fate);
      if ok then Execute(next, plan[1..], left) else next
  }

  /** Whether every operation of the plan is done. */
  predicate Completes(disk: Disk, plan: seq<Write>, fate: Fate)
    decreases |plan|
  {
    plan == [] ||
    var (ok, next, left) := Attempt(disk, plan[0], fate);
    ok && Completes(next, plan[1..], left)
  }

  // ----- what a command sets out to do -----

  function NewSession(root: string, c: Command): Session
    requires c.StartCapture?
  {
    Session(c.id, c.engine, Recording, c.nowMS, 0, Home(root, c.id), c.proxyKnown, 0, 0, c.details)
  }

  function StoppedSession(s: Session, c: Command): Session
    requires c.StopCapture? && c.exported.Some?
  {
    var dir := if c.out == "" then s.dir else c.out;
    var t := s.(status := Completed, stoppedMS := c.nowMS, dir := dir);
    if s.engine == Proxify then t.(requestCount := c.exported.value.0, skippedCount := c.exported.value.1) else t
  }

  function MarkedSession(s: Session, c: Command): Session
    requires c.MarkCapture?
  {
    s.(status := if c.starting then Starting else Recording)
  }

  /** The file operations of a command in their order; none when it is refused. */
  function Plan(disk: Disk, c: Command): seq<Write> {
    match c
    case StartCapture(engine, id, ready, _, _, _) =>
      if (disk.active.Whole? && disk.active.session.stoppedMS == 0) || !ready then []
      else
        var s := NewSession(disk.root, c);
        (match engine
         case Proxify => [WriteMeta(s.dir, s), WriteActive(s)]
         case Charles => [WriteActive(s), WriteMeta(s.dir, s)]
         case OtherEngine => [])
    case StopCapture(_, exported, _) =>
      if !disk.active.Whole? || disk.active.session.engine == OtherEngine || exported == None then []
      else
        var s := disk.active.session;
        var t := StoppedSession(s, c);
        if t.dir == s.dir then [WriteMeta(t.dir, t), ClearActive]
        else [WriteMeta(t.dir, t), WriteMeta(s.dir, t), ClearActive]
    case AbandonCapture(id, charlesStops, nowMS) =>
      if !Names(disk.active, id) then []
      else
        var s := disk.active.session;
        var t := s.(status := Abandoned, stoppedMS := nowMS);
        if s.engine == Charles && !(s.proxyKnown && charlesStops) then []
        else [WriteMeta(t.dir, t), ClearActive]
    case MarkCapture(id, _) =>
      if !Names(disk.active, id) then []
      else
        var t := MarkedSession(disk.active.session, c);
        [WriteActive(t), WriteMeta(t.dir, t)]
  }

  function Outcome(disk: Disk, c: Command, fate: Fate): Disk {
    Execute(disk, Plan(disk, c), fate)
  }

  predicate Succeeds(disk: Disk, c: Command, fate: Fate) {
    Plan(disk, c) != [] && Completes(disk, Plan(disk, c), fate)
  }

  // ----- the commands themselves; each holds the session lock from beginning to end -----

  class SessionStore {
    const root: string
    var active: File
    var meta: map<string, File>
    var fate: Fate

    constructor (disk: Disk, fate: Fate)
      ensures Now() == disk && this.fate == fate
    {
      root, active, meta := disk.root, disk.active, disk.meta;
      this.fate := fate;
    }

    function Now(): Disk
      reads this
    {
      Disk(root, active, meta)
    }

    method WriteState(s: Session) returns (ok: bool)
      modifies this
      ensures (ok, Now(), fate) == Attempt(old(Now()), WriteActive(s), old(fate))
    {
      match fate {
        case Survives => active := Whole(s); ok := true;
        case Dies(after, tears) =>
          if after == 0 {
            active := if tears then Torn else active;
            ok := false;
          } else {
            active, fate, ok := Whole(s), Dies(after - 1, tears), true;
          }
      }
    }

    method WriteSessionMetadataTo(directory: string, s: Session) returns (ok: bool)
      modifies this
      ensures (ok, Now(), fate) == Attempt(old(Now()), WriteMeta(directory, s), old(fate))
    {
      if directory == "" {
        return false;
      }
      match fate {
        case Survives => meta := meta[directory := Whole(s)]; ok := true;
        case Dies(after, tears) =>
          if after == 0 {
            meta := if tears then meta[directory := Torn] else meta;
            ok := false;
          } else {
            meta, fate, ok := meta[directory := Whole(s)], Dies(after - 1, tears), true;
          }
      }
    }

    method ClearState() returns (ok: bool)
      modifies this
      ensures (ok, Now(), fate) == Attempt(old(Now()), ClearActive, old(fate))
    {
      match fate {
        case Survives => active := Absent; ok := true;
        case Dies(after, tears) =>
          if after == 0 {
            ok := false;
          } else {
            active, fate, ok := Absent, Dies(after - 1, tears), true;
          }
      }
    }

    method Start(c: Command) returns (started: bool)
      requires c.StartCapture?
      modifies this
      ensures Now() == Outcome(old(Now()), c, old(fate)) && started == Succeeds(old(Now()), c, old(fate))
      ensures started ==> active == Whole(NewSession(root, c))
    {
      hide Attempt;
      ghost var disk, before, plan := Now(), fate, Plan(Now(), c);
      ExecuteSteps(disk, plan, before);
      if active.Whole? && active.session.stoppedMS == 0 {
        return false;
      }
      if !c.ready {
        return false;
      }
      var s := NewSession(root, c);
      var ok;
      match c.engine {
        case Proxify =>
          ok := WriteSessionMetadataTo(s.dir, s);
          if ok {
            ok := WriteState(s);
          }
          started := ok;
        case Charles =>
          ok := WriteState(s);
          if ok {
            ok := WriteSessionMetadataTo(s.dir, s);
          }
          started := ok;
        case OtherEngine => started := false;
      }
      if started {
        StartedActive(disk, s, before, c.engine);
      }
    }

    method Stop(c: Command) returns (stopped: bool)
      requires c.StopCapture?
      modifies this
      ensures Now() == Outcome(old(Now()), c, old(fate)) && stopped == Succeeds(old(Now()), c, old(fate))
    {
      hide Attempt;
      ghost var disk, before, plan := Now(), fate, Plan(Now(), c);
      ExecuteSteps(disk, plan, before);
      if !active.Whole? || active.session.engine == OtherEngine || c.exported == None {
        return false;
      }
      var originalSessionDir := active.session.dir;
      var s := StoppedSession(active.session, c);
      stopped := WriteSessionMetadataTo(s.dir, s);
      if !stopped {
        return;
      }
      if s.dir != originalSessionDir {
        stopped := WriteSessionMetadataTo(originalSessionDir, s);
        if !stopped {
          return;
        }
      }
      stopped := ClearState();
    }

    method Abandon(c: Command) returns (abandoned: bool)
      requires c.AbandonCapture?
      modifies this
      ensures Now() == Outcome(old(Now()), c, old(fate)) && abandoned == Succeeds(old(Now()), c, old(fate))
    {
      hide Attempt;
      ghost var disk, before, plan := Now(), fate, Plan(Now(), c);
      ExecuteSteps(disk, plan, before);
      if !active.Whole? || active.session.id != c.id {
        return false;
      }
      var s := active.session;
      if s.engine == Charles {
        if !s.proxyKnown || !c.charlesStops {
          return false;
        }
      }
      s := s.(status := Abandoned, stoppedMS := c.nowMS);
      abandoned := WriteSessionMetadataTo(s.dir, s);
      if abandoned {
        abandoned := ClearState();
      }
    }

    method MarkActiveSessionStatus(c: Command) returns (marked: bool)
      requires c.MarkCapture?
      modifies this
      ensures Now() == Outcome(old(Now()), c, old(fate)) && marked == Succeeds(old(Now()), c, old(fate))
    {
      hide Attempt;
      ghost var disk, before, plan := Now(), fate, Plan(Now(), c);
      ExecuteSteps(disk, plan, before);
      if !active.Whole? || active.session.id != c.id {
        return false;
      }
      var s := MarkedSession(active.session, c);
      marked := WriteState(s);
      if marked {
        marked := WriteSessionMetadataTo(s.dir, s);
      }
    }
  }

  /** At most three operations, one after the other. */
  lemma ExecuteSteps(disk: Disk, plan: seq<Write>, fate: Fate)
    requires |plan| <= 3
    ensures plan == [] ==> Execute(disk, plan, fate) == disk
    ensures plan != [] ==>
      var (ok, d, f) := Attempt(disk, plan[0], fate);
      if !ok || |plan| == 1 then Execute(disk, plan, fate) == d && Completes(disk, plan, fate) == ok
      else
        var (ok2, d2, f2) := Attempt(d, plan[1], f);
        if !ok2 || |plan| == 2 then Execute(disk, plan, fate) == d2 && Completes(disk, plan, fate) == ok2
        else
          var (ok3, d3, f3) := Attempt(d2, plan[2], f2);
          Execute(disk, plan, fate) == d3 && Completes(disk, plan, fate) == ok3
  {
    hide Attempt;
    if |plan| > 1 {
      var (ok, d, f) := Attempt(disk, plan[0], fate);
      assert plan[1..][0] == plan[1];
      if |plan| > 2 {
        assert plan[1..][1..] == [plan[2]];
        var (ok2, d2, f2) := Attempt(d, plan[1], f);
        LastStep(d2, plan[2], f2);
      } else {
        assert plan[1..] == [plan[1]];
        LastStep(d, plan[1], f);
      }
    } else if |plan| == 1 {
      assert plan == [plan[0]];
      LastStep(disk, plan[0], fate);
    }
  }

  lemma LastStep(disk: Disk, w: Write, fate: Fate)
    ensures Execute(disk, [w], fate) == Attempt(disk, w, fate).1
    ensures Completes(disk, [w], fate) == Attempt(disk, w, fate).0
  {
    hide Attempt;
    assert [w][1..] == [];
    NothingToDo(Attempt(disk, w, fate).1, Attempt(disk, w, fate).2);
  }

  lemma NothingToDo(disk: Disk, fate: Fate)
    ensures Execute(disk, [], fate) == disk && Completes(disk, [], fate)
  {
  }

  lemma StartedActive(disk: Disk, s: Session, fate: Fate, engine: Engine)
    requires engine != OtherEngine
    requires
      var plan := if engine == Proxify then [WriteMeta(s.dir, s), WriteActive(s)]
        else [WriteActive(s), WriteMeta(s.dir, s)];
      var (ok, d, f) := Attempt(disk, plan[0], fate);
      ok && Attempt(d, plan[1], f).0
    ensures
      var plan := if engine == Proxify then [WriteMeta(s.dir, s), WriteActive(s)]
        else [WriteActive(s), WriteMeta(s.dir, s)];
      Execute(disk, plan, fate).active == Whole(s)
  {
    var plan := if engine == Proxify then [WriteMeta(s.dir, s), WriteActive(s)]
      else [WriteActive(s), WriteMeta(s.dir, s)];
    ExecuteSteps(disk, plan, fate);
  }
}
