/** The control requests of a phone and the table that answers repeated ones
    (cli/control_server.go:182-328, 448-459). */
module ControlCommands {
  import opened Captures
  import opened CaptureSessions
  import CaptureLifecycle
  import Texts

  datatype Device = Device(profileId: string, deviceId: string, engine: Engine)

  datatype CaptureVerb = Confirm | StopIt | AbandonIt

  /** A decoded request; `pathId` is the capture id in the request's path. */
  datatype Request =
    | Undecodable
    | ToStart(commandId: string, profileId: string, deviceId: string, proxyHost: string, proxyPort: int,
      packages: seq<string>)
    | ToCapture(verb: CaptureVerb, pathId: string, commandId: string, captureId: string)

  datatype Reason = Rejected | ProxyNotReady | NotDone | AnotherIsActive

  datatype Reply =
    | Failed(httpStatus: int, reason: Reason)
    | Answer(captureId: string, status: Status, startMS: int, endMS: int, dir: string)

  /** What a request meets: the proxy and the engine, the new id, the clock, and how far each session
      operation gets. */
  datatype Surroundings = Surroundings(
    proxyReady: bool, newId: string, engineReady: bool, nowMS: int, details: string,
    exported: Option<(nat, nat)>, charlesStops: bool, fate: Fate, markFate: Fate)

  /** What a request has done besides answering. */
  datatype Effect = ProxyEnsured(commandId: string) | Ran(commandId: string, command: Command)

  datatype App = App(commands: map<string, Reply>, disk: Disk, effects: seq<Effect>)

  predicate ValidCaptureId(value: string) {
    && 10 <= |value| <= 80
    && forall c | c in value :: 'a' <= c <= 'z' || 'A' <= c <= 'Z' || '0' <= c <= '9' || c == '-' || c == '_'
  }

  /** Requests that get as far as the command table. */
  predicate Acceptable(device: Device, r: Request) {
    match r
    case Undecodable => false
    case ToStart(commandId, profileId, deviceId, proxyHost, proxyPort, packages) =>
      && commandId != "" && profileId == device.profileId && deviceId == device.deviceId
      && (exists p | p in packages :: Texts.Trim(p) != "")
      && 1 <= proxyPort <= 65535 && Texts.Trim(proxyHost) != ""
    case ToCapture(_, pathId, commandId, captureId) =>
      commandId != "" && captureId == pathId && ValidCaptureId(pathId)
  }

  const BAD_REQUEST := Failed(400, Rejected)

  function Conflict(reason: Reason): Reply {
    Failed(409, reason)
  }

  function StartCommand(device: Device, near: Surroundings): Command {
    StartCapture(device.engine, near.newId, near.engineReady, near.nowMS, true, near.details)
  }

  function StopCommand(near: Surroundings): Command {
    StopCapture("", near.exported, near.nowMS)
  }

  /** What a request does the first time. */
  function FirstTime(app: App, device: Device, r: Request, near: Surroundings): (App, Reply)
    requires Acceptable(device, r)
  {
    var id := r.commandId;
    match r
    case ToStart(_, _, _, _, _, _) =>
      var ensured := app.(effects := app.effects + [ProxyEnsured(id)]);
      if !near.proxyReady then (ensured, Conflict(ProxyNotReady))
      else
        var start := StartCommand(device, near);
        var started := Did(ensured, id, start, near.fate);
        if !Succeeds(app.disk, start, near.fate) then (started, Conflict(NotDone))
        else
          (Did(started, id, MarkCapture(near.newId, true), near.markFate),
           Answer(near.newId, Starting, near.nowMS, 0, Home(app.disk.root, near.newId)))
    case ToCapture(Confirm, captureId, _, _) =>
      var mark := MarkCapture(captureId, false);
      (Did(app, id, mark, near.fate),
       if Succeeds(app.disk, mark, near.fate) then Answer(captureId, Recording, 0, 0, "") else Conflict(NotDone))
    case ToCapture(StopIt, captureId, _, _) =>
      if !app.disk.active.Whole? then (app, Conflict(NotDone))
      else if app.disk.active.session.id != captureId then (app, Conflict(AnotherIsActive))
      else
        var stopped := Did(app, id, StopCommand(near), near.fate);
        (stopped,
         if !Succeeds(app.disk, StopCommand(near), near.fate) then Conflict(NotDone)
         else StoppedReply(captureId, MetaAt(stopped.disk, app.disk.active.session.dir)))
    case ToCapture(AbandonIt, captureId, _, _) =>
      var abandon := AbandonCapture(captureId, near.charlesStops, near.nowMS);
      (Did(app, id, abandon, near.fate),
       if Succeeds(app.disk, abandon, near.fate)
         then Answer(captureId, Abandoned, 0, near.nowMS, app.disk.active.session.dir)
       else Conflict(NotDone))
  }

  function Did(app: App, id: string, c: Command, fate: Fate): App {
    app.(disk := Outcome(app.disk, c, fate), effects := app.effects + [Ran(id, c)])
  }

  function StoppedReply(captureId: string, meta: File): Reply {
    if meta.Whole? then Answer(captureId, Completed, 0, meta.session.stoppedMS, meta.session.dir)
    else Answer(captureId, Completed, 0, 0, "")
  }

  /** A request from beginning to end. */
  function Serve(app: App, device: Device, r: Request, near: Surroundings): (App, Reply) {
    if !Acceptable(device, r) then (app, BAD_REQUEST)
    else if r.commandId in app.commands then (app, app.commands[r.commandId])
    else
      var (after, reply) := FirstTime(app, device, r, near);
      (after.(commands := app.commands[r.commandId := reply]), reply)
  }

  // ----- the handlers -----

  class ControlApplication {
    const sessions: SessionStore
    var commands: map<string, Reply>
    var effects: seq<Effect>

    constructor (sessions: SessionStore)
      ensures this.sessions == sessions && commands == map[] && effects == []
    {
      this.sessions := sessions;
      commands, effects := map[], [];
    }

    function Now(): App
      reads this, sessions
    {
      App(commands, sessions.Now(), effects)
    }

    method ReplyCachedCommand(id: string) returns (cached: Option<Reply>)
      ensures cached == if id in commands then Some(commands[id]) else None
    {
      cached := if id in commands then Some(commands[id]) else None;
    }

    method RememberAndReply(id: string, reply: Reply)
      modifies this`commands
      ensures commands == if id == "" then old(commands) else old(commands)[id := reply]
    {
      if id != "" {
        commands := commands[id := reply];
      }
    }

    method HandleStart(device: Device, r: Request, near: Surroundings) returns (reply: Reply)
      requires r.ToStart? || r.Undecodable?
      modifies this, sessions
      ensures (Now(), reply) == Serve(old(Now()), device, r, near)
    {
      hide Outcome, Succeeds, Home;
      if r.Undecodable? {
        return BAD_REQUEST;
      }
      if r.commandId == "" || r.profileId != device.profileId || r.deviceId != device.deviceId {
        return BAD_REQUEST;
      }
      if forall p | p in r.packages :: Texts.Trim(p) == "" {
        return BAD_REQUEST;
      }
      if r.proxyPort < 1 || r.proxyPort > 65535 || Texts.Trim(r.proxyHost) == "" {
        return BAD_REQUEST;
      }
      var cached := ReplyCachedCommand(r.commandId);
      if cached.Some? {
        return cached.value;
      }
      effects := effects + [ProxyEnsured(r.commandId)];
      if !near.proxyReady {
        reply := Conflict(ProxyNotReady);
        RememberAndReply(r.commandId, reply);
        return;
      }
      var start := StartCommand(device, near);
      sessions.fate := near.fate;
      var ok := sessions.Start(start);
      effects := effects + [Ran(r.commandId, start)];
      if !ok {
        reply := Conflict(NotDone);
        RememberAndReply(r.commandId, reply);
        return;
      }
      var state := sessions.active.session;
      sessions.fate := near.markFate;
      var mark := MarkCapture(state.id, true);
      var _ := sessions.MarkActiveSessionStatus(mark);
      effects := effects + [Ran(r.commandId, mark)];
      reply := Answer(state.id, Starting, state.startedMS, 0, state.dir);
      RememberAndReply(r.commandId, reply);
    }

    method HandleConfirm(device: Device, r: Request, near: Surroundings) returns (reply: Reply)
      requires r.Undecodable? || (r.ToCapture? && r.verb == Confirm)
      modifies this, sessions
      ensures (Now(), reply) == Serve(old(Now()), device, r, near)
    {
      hide Outcome, Succeeds, ValidCaptureId;
      if r.Undecodable? {
        return BAD_REQUEST;
      }
      if r.commandId == "" || r.captureId != r.pathId || !ValidCaptureId(r.pathId) {
        return BAD_REQUEST;
      }
      var cached := ReplyCachedCommand(r.commandId);
      if cached.Some? {
        return cached.value;
      }
      var mark := MarkCapture(r.pathId, false);
      sessions.fate := near.fate;
      var ok := sessions.MarkActiveSessionStatus(mark);
      effects := effects + [Ran(r.commandId, mark)];
      reply := if ok then Answer(r.pathId, Recording, 0, 0, "") else Conflict(NotDone);
      RememberAndReply(r.commandId, reply);
    }

    method HandleStop(device: Device, r: Request, near: Surroundings) returns (reply: Reply)
      requires r.Undecodable? || (r.ToCapture? && r.verb == StopIt)
      modifies this, sessions
      ensures (Now(), reply) == Serve(old(Now()), device, r, near)
    {
      hide Outcome, Succeeds, ValidCaptureId;
      if r.Undecodable? {
        return BAD_REQUEST;
      }
      if r.commandId == "" || r.captureId != r.pathId || !ValidCaptureId(r.pathId) {
        return BAD_REQUEST;
      }
      var cached := ReplyCachedCommand(r.commandId);
      if cached.Some? {
        return cached.value;
      }
      if !sessions.active.Whole? {
        reply := Conflict(NotDone);
        RememberAndReply(r.commandId, reply);
        return;
      }
      var active := sessions.active.session;
      if active.id != r.pathId {
        reply := Conflict(AnotherIsActive);
        RememberAndReply(r.commandId, reply);
        return;
      }
      sessions.fate := near.fate;
      var ok := sessions.Stop(StopCommand(near));
      effects := effects + [Ran(r.commandId, StopCommand(near))];
      reply := if ok then StoppedReply(r.pathId, MetaAt(sessions.Now(), active.dir)) else Conflict(NotDone);
      RememberAndReply(r.commandId, reply);
    }

    method HandleAbandon(device: Device, r: Request, near: Surroundings) returns (reply: Reply)
      requires r.Undecodable? || (r.ToCapture? && r.verb == AbandonIt)
      modifies this, sessions
      ensures (Now(), reply) == Serve(old(Now()), device, r, near)
    {
      hide Outcome, ValidCaptureId;
      if r.Undecodable? {
        return BAD_REQUEST;
      }
      if r.commandId == "" || r.captureId != r.pathId || !ValidCaptureId(r.pathId) {
        return BAD_REQUEST;
      }
      var cached := ReplyCachedCommand(r.commandId);
      if cached.Some? {
        return cached.value;
      }
      var abandon := AbandonCapture(r.pathId, near.charlesStops, near.nowMS);
      ghost var disk := sessions.Now();
      hide Completes;
      sessions.fate := near.fate;
      var dir := if sessions.active.Whole? then sessions.active.session.dir else "";
      var ok := sessions.Abandon(abandon);
      effects := effects + [Ran(r.commandId, abandon)];
      reply := if ok then Answer(r.pathId, Abandoned, 0, near.nowMS, dir) else Conflict(NotDone);
      RememberAndReply(r.commandId, reply);
    }
  }

  // ----- what a reply means -----

  /** An answer that is not a failure describes the disk it leaves; a failure in which no file operation
      was cut short leaves the disk as it was. */
  ghost predicate IsTrue(before: Disk, after: Disk, r: Request, near: Surroundings, reply: Reply)
    requires !r.Undecodable?
  {
    match reply
    case Failed(_, _) => near.fate == Survives ==> after == before
    case Answer(id, status, startMS, endMS, dir) =>
      if r.ToStart? then
        && Names(after.active, id) && after.active.session.startedMS == startMS && after.active.session.dir == dir
        && after.active.session.status == status && !before.active.Whole?
      else if r.verb == Confirm then
        && Names(before.active, r.pathId) && id == r.pathId && status == Recording
        && after.active == Whole(before.active.session.(status := Recording))
        && MetaAt(after, after.active.session.dir) == after.active
      else
        var meta := MetaAt(after, dir);
        && Names(before.active, r.pathId) && id == r.pathId && after.active == Absent
        && dir == Home(before.root, id) && meta.Whole? && meta.session.id == id && meta.session.status == status
        && meta.session.stoppedMS == endMS == near.nowMS
        && status == (if r.verb == StopIt then Completed else Abandoned)
  }

  /** The mark that follows a start may fail, and its error is dropped: what the disk says then. */
  lemma MarkOutcome(disk: Disk, id: string, starting: bool, fate: Fate)
    requires Names(disk.active, id)
    ensures Outcome(disk, MarkCapture(id, starting), fate).active ==
      if GetsThrough(fate, 1) then Whole(disk.active.session.(status := if starting then Starting else Recording))
      else if fate.tears then Torn
      else disk.active
  {
    ExecuteSteps(disk, Plan(disk, MarkCapture(id, starting)), fate);
    hide Execute, Completes;
  }

  /** A start's answer is true of the disk exactly when the mark got as far as the active file; it says
      `starting` in any case. */
  lemma StartIsTrueIff(app: App, device: Device, r: Request, near: Surroundings)
    requires Acceptable(device, r) && r.ToStart?
    requires CaptureLifecycle.LiveFile(app.disk.root, app.disk.active)
    ensures
      var (after, reply) := FirstTime(app, device, r, near);
      if reply.Answer? then IsTrue(app.disk, after.disk, r, near, reply) <==> GetsThrough(near.markFate, 1)
      else IsTrue(app.disk, after.disk, r, near, reply)
    ensures
      var (after, reply) := FirstTime(app, device, r, near);
      reply.Answer? && near.markFate == Dies(0, false) ==>
        reply.status == Starting && after.disk.active == Whole(NewSession(app.disk.root, StartCommand(device, near)))
  {
    hide Acceptable, Outcome, Succeeds, Home;
    var start := StartCommand(device, near);
    StartOutcome(app.disk, start, near.fate);
    if Succeeds(app.disk, start, near.fate) {
      MarkOutcome(Outcome(app.disk, start, near.fate), near.newId, true, near.markFate);
    }
  }

  lemma StartOutcome(disk: Disk, c: Command, fate: Fate)
    requires c.StartCapture? && CaptureLifecycle.LiveFile(disk.root, disk.active)
    ensures Succeeds(disk, c, fate) ==>
      Outcome(disk, c, fate).active == Whole(NewSession(disk.root, c)) && !disk.active.Whole?
    ensures !Succeeds(disk, c, fate) && fate == Survives ==> Outcome(disk, c, fate) == disk
  {
    CaptureLifecycle.HomesDiffer(disk.root, c.id, "");
    ExecuteSteps(disk, Plan(disk, c), fate);
    hide Home, Execute, Completes;
  }

  lemma ConfirmIsTrue(app: App, device: Device, r: Request, near: Surroundings)
    requires Acceptable(device, r) && r.ToCapture? && r.verb == Confirm
    requires CaptureLifecycle.LiveFile(app.disk.root, app.disk.active)
    ensures
      var (after, reply) := FirstTime(app, device, r, near);
      IsTrue(app.disk, after.disk, r, near, reply)
  {
    hide Acceptable, ValidCaptureId;
    ExecuteSteps(app.disk, Plan(app.disk, MarkCapture(r.pathId, false)), near.fate);
    hide Execute, Completes;
  }

  lemma StopIsTrue(app: App, device: Device, r: Request, near: Surroundings)
    requires Acceptable(device, r) && r.ToCapture? && r.verb == StopIt
    requires CaptureLifecycle.LiveFile(app.disk.root, app.disk.active)
    ensures
      var (after, reply) := FirstTime(app, device, r, near);
      IsTrue(app.disk, after.disk, r, near, reply)
  {
    hide Acceptable, ValidCaptureId, Home;
    ExecuteSteps(app.disk, Plan(app.disk, StopCommand(near)), near.fate);
    hide Execute, Completes;
  }

  lemma AbandonIsTrue(app: App, device: Device, r: Request, near: Surroundings)
    requires Acceptable(device, r) && r.ToCapture? && r.verb == AbandonIt
    requires CaptureLifecycle.LiveFile(app.disk.root, app.disk.active)
    ensures
      var (after, reply) := FirstTime(app, device, r, near);
      IsTrue(app.disk, after.disk, r, near, reply)
  {
    hide Acceptable, ValidCaptureId, Home;
    ExecuteSteps(app.disk, Plan(app.disk, AbandonCapture(r.pathId, near.charlesStops, near.nowMS)), near.fate);
    hide Execute, Completes;
  }

  /** Every first reply is true of the disk it leaves, but for a start's answer when the mark failed. */
  lemma RepliesAreTrueIff(app: App, device: Device, r: Request, near: Surroundings)
    requires Acceptable(device, r) && CaptureLifecycle.LiveFile(app.disk.root, app.disk.active)
    ensures !r.Undecodable?
    ensures
      var (after, reply) := FirstTime(app, device, r, near);
      IsTrue(app.disk, after.disk, r, near, reply) <==> (r.ToStart? && reply.Answer? ==> GetsThrough(near.markFate, 1))
  {
    AcceptableHasId(device, r);
    hide Acceptable, FirstTime, IsTrue;
    match r
    case ToStart(_, _, _, _, _, _) => StartIsTrueIff(app, device, r, near);
    case ToCapture(Confirm, _, _, _) => ConfirmIsTrue(app, device, r, near);
    case ToCapture(StopIt, _, _, _) => StopIsTrue(app, device, r, near);
    case ToCapture(AbandonIt, _, _, _) => AbandonIsTrue(app, device, r, near);
  }

  // ----- when a request is carried out -----

  /** Whether what a request asks for can be done, from the disk and what the request meets alone. Each of
      them takes two file operations. */
  predicate Feasible(disk: Disk, device: Device, r: Request, near: Surroundings)
    requires !r.Undecodable?
  {
    && GetsThrough(near.fate, 2)
    && match r
       case ToStart(_, _, _, _, _, _) =>
         near.proxyReady && near.engineReady && device.engine != OtherEngine && !disk.active.Whole?
       case ToCapture(Confirm, id, _, _) => Names(disk.active, id)
       case ToCapture(StopIt, id, _, _) => Names(disk.active, id) && near.exported.Some?
       case ToCapture(AbandonIt, id, _, _) =>
         Names(disk.active, id)
         && (disk.active.session.engine == Charles ==> disk.active.session.proxyKnown && near.charlesStops)
  }

  /** The file operations of a plan whose directories are named all succeed exactly when the process lives
      that long. */
  lemma CompletesIff(disk: Disk, plan: seq<Write>, fate: Fate)
    requires |plan| <= 3 && forall w | w in plan :: w.WriteMeta? ==> w.dir != ""
    ensures Completes(disk, plan, fate) <==> GetsThrough(fate, |plan|)
  {
    ExecuteSteps(disk, plan, fate);
    hide Execute, Perform, Tear;
    if plan == [] {
      NothingToDo(disk, fate);
    } else {
      assert forall k | 0 <= k < |plan| :: plan[k] in plan;
    }
    hide Completes;
  }

  lemma StartSucceedsIff(disk: Disk, c: Command, fate: Fate)
    requires c.StartCapture? && CaptureLifecycle.LiveFile(disk.root, disk.active)
    ensures Succeeds(disk, c, fate) <==>
      c.ready && c.engine != OtherEngine && !disk.active.Whole? && GetsThrough(fate, 2)
  {
    CaptureLifecycle.HomesDiffer(disk.root, c.id, "");
    hide Home, Execute, Completes;
    CompletesIff(disk, Plan(disk, c), fate);
  }

  lemma MarkSucceedsIff(disk: Disk, c: Command, fate: Fate)
    requires c.MarkCapture? && CaptureLifecycle.LiveFile(disk.root, disk.active)
    ensures Succeeds(disk, c, fate) <==> Names(disk.active, c.id) && GetsThrough(fate, 2)
  {
    CaptureLifecycle.HomesDiffer(disk.root, c.id, "");
    hide Home, Execute, Completes;
    CompletesIff(disk, Plan(disk, c), fate);
  }

  lemma StopSucceedsIff(disk: Disk, c: Command, fate: Fate)
    requires c.StopCapture? && c.out == "" && CaptureLifecycle.LiveFile(disk.root, disk.active)
    ensures Succeeds(disk, c, fate) <==> disk.active.Whole? && c.exported.Some? && GetsThrough(fate, 2)
  {
    if disk.active.Whole? {
      CaptureLifecycle.HomesDiffer(disk.root, disk.active.session.id, "");
    }
    hide Home, Execute, Completes;
    CompletesIff(disk, Plan(disk, c), fate);
  }

  lemma AbandonSucceedsIff(disk: Disk, c: Command, fate: Fate)
    requires c.AbandonCapture? && CaptureLifecycle.LiveFile(disk.root, disk.active)
    ensures Succeeds(disk, c, fate) <==>
      && Names(disk.active, c.id) && GetsThrough(fate, 2)
      && (disk.active.session.engine == Charles ==> disk.active.session.proxyKnown && c.charlesStops)
  {
    CaptureLifecycle.HomesDiffer(disk.root, c.id, "");
    hide Home, Execute, Completes;
    CompletesIff(disk, Plan(disk, c), fate);
  }

  lemma FirstAnswersIff(app: App, device: Device, r: Request, near: Surroundings)
    requires Acceptable(device, r) && CaptureLifecycle.LiveFile(app.disk.root, app.disk.active)
    ensures !r.Undecodable?
    ensures
      var reply := FirstTime(app, device, r, near).1;
      if Feasible(app.disk, device, r, near) then reply.Answer? else reply.Failed? && reply.httpStatus == 409
  {
    AcceptableHasId(device, r);
    hide Acceptable, Succeeds, Outcome, Home, MetaAt, CaptureLifecycle.LiveFile;
    match r
    case ToStart(_, _, _, _, _, _) => StartSucceedsIff(app.disk, StartCommand(device, near), near.fate);
    case ToCapture(Confirm, id, _, _) => MarkSucceedsIff(app.disk, MarkCapture(id, false), near.fate);
    case ToCapture(StopIt, id, _, _) => StopSucceedsIff(app.disk, StopCommand(near), near.fate);
    case ToCapture(AbandonIt, id, _, _) =>
      AbandonSucceedsIff(app.disk, AbandonCapture(id, near.charlesStops, near.nowMS), near.fate);
  }

  /** A request whose id is new gets an answer if and only if it is acceptable and what it asks for can be
      done; an unacceptable one is refused as such and changes nothing. */
  lemma AnswersIff(app: App, device: Device, r: Request, near: Surroundings)
    requires CaptureLifecycle.LiveFile(app.disk.root, app.disk.active)
    requires r.Undecodable? || r.commandId !in app.commands
    ensures
      var (after, reply) := Serve(app, device, r, near);
      && (reply.Answer? <==> Acceptable(device, r) && Feasible(app.disk, device, r, near))
      && (reply == BAD_REQUEST <==> !Acceptable(device, r))
      && (!Acceptable(device, r) ==> after == app)
  {
    hide FirstTime, Feasible, Acceptable, CaptureLifecycle.LiveFile;
    if Acceptable(device, r) {
      FirstAnswersIff(app, device, r, near);
    }
  }

  /** A start that is carried out runs the start and then the mark, and leaves the new capture active,
      unless the mark tears the active file. Without the proxy nothing runs at all. */
  lemma StartRuns(app: App, device: Device, r: Request, near: Surroundings)
    requires Acceptable(device, r) && r.ToStart? && r.commandId !in app.commands
    requires CaptureLifecycle.LiveFile(app.disk.root, app.disk.active)
    ensures
      var (after, reply) := Serve(app, device, r, near);
      var ensured := app.effects + [ProxyEnsured(r.commandId)];
      && (!near.proxyReady ==> after.disk == app.disk && after.effects == ensured)
      && (Feasible(app.disk, device, r, near) ==>
            && reply == Answer(near.newId, Starting, near.nowMS, 0, Home(app.disk.root, near.newId))
            && (if near.markFate == Dies(0, true) then after.disk.active == Torn
                else Names(after.disk.active, near.newId) && after.disk.active.session.engine == device.engine)
            && after.effects == ensured + [Ran(r.commandId, StartCommand(device, near))]
              + [Ran(r.commandId, MarkCapture(near.newId, true))])
  {
    hide Acceptable, Outcome, Succeeds, Home;
    var start := StartCommand(device, near);
    StartSucceedsIff(app.disk, start, near.fate);
    StartOutcome(app.disk, start, near.fate);
    if Succeeds(app.disk, start, near.fate) {
      MarkOutcome(Outcome(app.disk, start, near.fate), near.newId, true, near.markFate);
    }
  }

  // ----- requests one after the other -----

  /** A request is served, or a command from elsewhere changes the disk. */
  datatype Event =
    | Served(device: Device, request: Request, near: Surroundings)
    | Elsewhere(command: Command, fate: Fate)

  function After(app: App, e: Event): App {
    match e
    case Served(device, request, near) => Serve(app, device, request, near).0
    case Elsewhere(command, fate) => app.(disk := Outcome(app.disk, command, fate))
  }

  function RunEvents(app: App, events: seq<Event>): App {
    if events == [] then app else After(RunEvents(app, events[..|events| - 1]), events[|events| - 1])
  }

  predicate Counts(e: Event, id: string) {
    e.Served? && Acceptable(e.device, e.request) && e.request.commandId == id
  }

  lemma {:induction false} TableGrows(app: App, events: seq<Event>, k: nat, id: string)
    requires k <= |events| && id in RunEvents(app, events[..k]).commands
    ensures id in RunEvents(app, events).commands
    ensures RunEvents(app, events).commands[id] == RunEvents(app, events[..k]).commands[id]
    decreases |events|
  {
    hide FirstTime, Acceptable, Outcome;
    if k < |events| {
      assert events[..|events| - 1][..k] == events[..k];
      TableGrows(app, events[..|events| - 1], k, id);
    } else {
      assert events[..k] == events;
    }
  }

  /** In every run, of the acceptable requests with one command id only the first does anything; each
      later one, whatever it asks for, gets the first one's reply. */
  lemma OnlyTheFirstActs(app: App, events: seq<Event>, i: nat, j: nat, id: string)
    requires i < j < |events| && Counts(events[i], id) && Counts(events[j], id)
    ensures
      var (first, later) := (events[i], events[j]);
      var before := RunEvents(app, events[..j]);
      && After(before, later) == before
      && Serve(before, later.device, later.request, later.near).1
        == Serve(RunEvents(app, events[..i]), first.device, first.request, first.near).1
  {
    hide FirstTime, Acceptable, Outcome;
    assert events[..i + 1][..|events[..i + 1]| - 1] == events[..i];
    assert events[..j][..i + 1] == events[..i + 1];
    TableGrows(app, events[..j], i + 1, id);
  }

  /** Whatever commands do and wherever they die, what the active file names is a live capture. */
  lemma LiveAfter(disk: Disk, c: Command, fate: Fate)
    requires CaptureLifecycle.LiveFile(disk.root, disk.active)
    ensures
      var after := Outcome(disk, c, fate);
      after.root == disk.root && CaptureLifecycle.LiveFile(after.root, after.active)
  {
    ExecuteSteps(disk, Plan(disk, c), fate);
    hide Home, Execute, Completes;
  }

  lemma LiveAfterEvent(app: App, e: Event)
    requires CaptureLifecycle.LiveFile(app.disk.root, app.disk.active)
    ensures CaptureLifecycle.LiveFile(After(app, e).disk.root, After(app, e).disk.active)
  {
    hide Outcome, Succeeds, CaptureLifecycle.LiveFile, Acceptable, Home, MetaAt;
    match e
    case Elsewhere(c, fate) => LiveAfter(app.disk, c, fate);
    case Served(device, r, near) =>
      if Acceptable(device, r) {
        AcceptableHasId(device, r);
        match r
        case ToStart(_, _, _, _, _, _) =>
          LiveAfter(app.disk, StartCommand(device, near), near.fate);
          LiveAfter(Outcome(app.disk, StartCommand(device, near), near.fate), MarkCapture(near.newId, true),
            near.markFate);
        case ToCapture(_, id, _, _) =>
          LiveAfter(app.disk, MarkCapture(id, false), near.fate);
          LiveAfter(app.disk, StopCommand(near), near.fate);
          LiveAfter(app.disk, AbandonCapture(id, near.charlesStops, near.nowMS), near.fate);
      }
  }

  lemma {:induction false} LiveInRuns(app: App, events: seq<Event>)
    requires CaptureLifecycle.LiveFile(app.disk.root, app.disk.active)
    ensures
      var disk := RunEvents(app, events).disk;
      CaptureLifecycle.LiveFile(disk.root, disk.active)
    decreases |events|
  {
    hide After, CaptureLifecycle.LiveFile;
    if events != [] {
      LiveInRuns(app, events[..|events| - 1]);
      LiveAfterEvent(RunEvents(app, events[..|events| - 1]), events[|events| - 1]);
    }
  }

  /** So in every run of a server that began with no capture active, whatever died where: the first
      request with an id is answered exactly when it is acceptable and can be carried out at that moment. */
  lemma AnsweredInRunsIff(disk: Disk, events: seq<Event>, device: Device, r: Request, near: Surroundings)
    requires disk.active == Absent
    ensures
      var app := RunEvents(App(map[], disk, []), events);
      r.Undecodable? || r.commandId !in app.commands ==>
        (Serve(app, device, r, near).1.Answer? <==> Acceptable(device, r) && Feasible(app.disk, device, r, near))
  {
    var first, app := App(map[], disk, []), RunEvents(App(map[], disk, []), events);
    assert CaptureLifecycle.LiveFile(disk.root, disk.active);
    LiveInRuns(first, events);
    hide RunEvents, Serve, Feasible, Acceptable, CaptureLifecycle.LiveFile;
    if r.Undecodable? || r.commandId !in app.commands {
      AnswersIff(app, device, r, near);
    }
  }

  predicate IsOperation(e: Effect) {
    e.Ran? && !(e.command.MarkCapture? && e.command.starting)
  }

  function Operations(effects: seq<Effect>, id: string): nat {
    if effects == [] then 0
    else
      var last := effects[|effects| - 1];
      Operations(effects[..|effects| - 1], id) + (if IsOperation(last) && last.commandId == id then 1 else 0)
  }

  lemma OneMoreEffect(effects: seq<Effect>, e: Effect, id: string)
    ensures Operations(effects + [e], id) == Operations(effects, id)
      + (if IsOperation(e) && e.commandId == id then 1 else 0)
  {
    assert (effects + [e])[..|effects|] == effects;
  }

  /** A first request starts, confirms, stops or abandons at most once, in the name of its own id only. */
  lemma FirstTimeActsOnce(app: App, device: Device, r: Request, near: Surroundings, id: string)
    requires Acceptable(device, r)
    ensures
      var added := Operations(FirstTime(app, device, r, near).0.effects, id) - Operations(app.effects, id);
      0 <= added <= (if id == r.commandId then 1 else 0)
  {
    hide Outcome, Succeeds, Operations, Home, ValidCaptureId, Texts.Trim;
    match r
    case ToStart(_, _, _, _, _, _) =>
      var start, mark := Ran(r.commandId, StartCommand(device, near)), Ran(r.commandId, MarkCapture(near.newId, true));
      OneMoreEffect(app.effects, ProxyEnsured(r.commandId), id);
      OneMoreEffect(app.effects + [ProxyEnsured(r.commandId)], start, id);
      OneMoreEffect(app.effects + [ProxyEnsured(r.commandId)] + [start], mark, id);
    case ToCapture(verb, captureId, _, _) =>
      OneMoreEffect(app.effects, Ran(r.commandId, MarkCapture(captureId, false)), id);
      OneMoreEffect(app.effects, Ran(r.commandId, StopCommand(near)), id);
      OneMoreEffect(app.effects, Ran(r.commandId, AbandonCapture(captureId, near.charlesStops, near.nowMS)), id);
  }

  lemma AcceptableHasId(device: Device, r: Request)
    requires Acceptable(device, r)
    ensures !r.Undecodable?
  {
  }

  /** Over any run of a server, every command id starts, confirms, stops or abandons at most once. */
  lemma {:induction false} AtMostOnce(disk: Disk, events: seq<Event>, id: string)
    ensures
      var app := RunEvents(App(map[], disk, []), events);
      && Operations(app.effects, id) <= 1
      && (id !in app.commands ==> Operations(app.effects, id) == 0)
    decreases |events|
  {
    hide FirstTime, Acceptable, Outcome;
    if events != [] {
      var before := RunEvents(App(map[], disk, []), events[..|events| - 1]);
      AtMostOnce(disk, events[..|events| - 1], id);
      var last := events[|events| - 1];
      if last.Served? && Acceptable(last.device, last.request) {
        AcceptableHasId(last.device, last.request);
        FirstTimeActsOnce(before, last.device, last.request, last.near, id);
      }
      hide Operations;
    }
  }
}
