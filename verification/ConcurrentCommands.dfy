/** Control requests that are served at the same time: looking into the command table, acting and
    remembering the reply are three separate moments (cli/control_server.go:200-228, 310-328). */
module ConcurrentCommands {
  import opened CaptureSessions
  import opened ControlCommands

  /** The moments of the r-th request. */
  datatype Moment = Look(r: nat) | Act(r: nat) | Remember(r: nat)

  // ----- the server at every moment -----

  /** The server's state, with the requests that missed the table, those that acted, and the replies they
      have not remembered yet. */
  datatype Server = Server(app: App, missed: set<nat>, acted: set<nat>, replies: map<nat, Reply>)

  /** Requests as they get past validation, in any number and with any command ids. */
  predicate Requests(events: seq<Event>) {
    forall e | e in events :: e.Served? && Acceptable(e.device, e.request)
  }

  function IdOf(events: seq<Event>, r: nat): string
    requires Requests(events) && r < |events|
  {
    AcceptableHasId(events[r].device, events[r].request);
    events[r].request.commandId
  }

  function Happens(s: Server, m: Moment, events: seq<Event>): Server
    requires Requests(events) && m.r < |events|
  {
    var id := IdOf(events, m.r);
    match m
    case Look(r) => if id in s.app.commands then s else s.(missed := s.missed + {r})
    case Act(r) =>
      if r !in s.missed then s
      else
        var (after, reply) := FirstTime(s.app, events[r].device, events[r].request, events[r].near);
        s.(app := after, acted := s.acted + {r}, replies := s.replies[r := reply])
    case Remember(r) =>
      if r !in s.replies then s
      else s.(app := s.app.(commands := s.app.commands[id := s.replies[r]]))
  }

  predicate InRange(schedule: seq<Moment>, n: nat) {
    forall m | m in schedule :: m.r < n
  }

  function Play(start: App, schedule: seq<Moment>, events: seq<Event>): Server
    requires Requests(events) && InRange(schedule, |events|)
  {
    if schedule == [] then Server(start, {}, {}, map[])
    else Happens(Play(start, schedule[..|schedule| - 1], events), schedule[|schedule| - 1], events)
  }

  lemma FirstTimeKeepsTable(app: App, device: Device, r: Request, near: Surroundings)
    requires Acceptable(device, r)
    ensures FirstTime(app, device, r, near).0.commands == app.commands
  {
    hide Acceptable, Outcome, Succeeds;
  }

  lemma OneMoment(start: App, schedule: seq<Moment>, events: seq<Event>, n: nat)
    requires Requests(events) && InRange(schedule, |events|) && 0 < n <= |schedule|
    ensures InRange(schedule[..n], |events|) && InRange(schedule[..n - 1], |events|) && schedule[n - 1].r < |events|
    ensures Play(start, schedule[..n], events)
      == Happens(Play(start, schedule[..n - 1], events), schedule[n - 1], events)
  {
    hide Happens, Requests;
    assert schedule[..n][..n - 1] == schedule[..n - 1];
    assert schedule[n - 1] in schedule;
  }

  // ----- without overlap -----

  /** Each request in turn, from its look to its remembering. */
  function OneByOne(n: nat): seq<Moment> {
    if n == 0 then [] else OneByOne(n - 1) + [Look(n - 1), Act(n - 1), Remember(n - 1)]
  }

  lemma {:induction false} OneByOneInRange(n: nat)
    ensures InRange(OneByOne(n), n) && |OneByOne(n)| == 3 * n
    decreases n
  {
    if n > 0 {
      OneByOneInRange(n - 1);
    }
  }

  /** The three moments of one request, with nothing between them, are Serve. */
  lemma AloneIsServe(s: Server, events: seq<Event>, r: nat)
    requires Requests(events) && r < |events| && r !in s.missed && r !in s.replies
    ensures
      var end := Happens(Happens(Happens(s, Look(r), events), Act(r), events), Remember(r), events);
      && end.app == After(s.app, events[r])
      && end.missed <= s.missed + {r} && end.replies.Keys <= s.replies.Keys + {r}
      && end.acted == s.acted + (if IdOf(events, r) in s.app.commands then {} else {r})
  {
    FirstTimeKeepsTable(s.app, events[r].device, events[r].request, events[r].near);
    hide FirstTime, Acceptable;
  }

  lemma ThreeMoments(start: App, before: seq<Moment>, events: seq<Event>, r: nat)
    requires Requests(events) && InRange(before, |events|) && r < |events|
    ensures
      var schedule := before + [Look(r), Act(r), Remember(r)];
      && InRange(schedule, |events|)
      && Play(start, schedule, events)
        == Happens(Happens(Happens(Play(start, before, events), Look(r), events), Act(r), events), Remember(r), events)
  {
    hide Happens, Requests, Play;
    var n := |before|;
    var schedule := before + [Look(r), Act(r), Remember(r)];
    assert schedule[..n] == before && schedule[..n + 3] == schedule;
    OneMoment(start, schedule, events, n + 1);
    OneMoment(start, schedule, events, n + 2);
    OneMoment(start, schedule, events, n + 3);
  }

  lemma OneEvent(start: App, events: seq<Event>, n: nat)
    requires 0 < n <= |events|
    ensures RunEvents(start, events[..n]) == After(RunEvents(start, events[..n - 1]), events[n - 1])
  {
    hide After;
    assert events[..n][..n - 1] == events[..n - 1];
  }

  lemma NothingYet(start: App, events: seq<Event>)
    requires Requests(events)
    ensures Play(start, [], events) == Server(start, {}, {}, map[]) && RunEvents(start, events[..0]) == start
  {
  }

  /** A schedule without overlap does exactly what serving the requests one after the other does. */
  lemma {:induction false} OneByOneIsSerial(start: App, events: seq<Event>, n: nat)
    requires Requests(events) && n <= |events|
    ensures InRange(OneByOne(n), |events|)
    ensures
      var s := Play(start, OneByOne(n), events);
      && s.app == RunEvents(start, events[..n])
      && (forall r | r in s.missed :: r < n) && forall r | r in s.replies :: r < n
    decreases n
  {
    hide Happens, Requests, After, Play, RunEvents, IdOf;
    if n == 0 {
      NothingYet(start, events);
    } else {
      OneByOneIsSerial(start, events, n - 1);
      ThreeMoments(start, OneByOne(n - 1), events, n - 1);
      AloneIsServe(Play(start, OneByOne(n - 1), events), events, n - 1);
      OneEvent(start, events, n);
    }
  }

  // ----- with overlap -----

  /** When a request looks, acts and remembers, as positions in the schedule. */
  datatype Timing = Timing(look: nat, act: nat, remember: nat)

  predicate Takes(schedule: seq<Moment>, r: nat, t: Timing) {
    && t.look < t.act < t.remember < |schedule|
    && forall k | 0 <= k < |schedule| ::
         && (schedule[k] == Look(r) <==> k == t.look)
         && (schedule[k] == Act(r) <==> k == t.act)
         && (schedule[k] == Remember(r) <==> k == t.remember)
  }

  /** Every request runs to its end, and its three moments come in order, with any others in between. */
  ghost predicate Timed(schedule: seq<Moment>, times: seq<Timing>) {
    InRange(schedule, |times|) && forall r | 0 <= r < |times| :: Takes(schedule, r, times[r])
  }

  lemma HappensKeys(s: Server, m: Moment, events: seq<Event>)
    requires Requests(events) && m.r < |events|
    ensures
      var next, id := Happens(s, m, events), IdOf(events, m.r);
      var acts := m.Act? && m.r in s.missed;
      && next.missed == s.missed + (if m.Look? && id !in s.app.commands then {m.r} else {})
      && next.acted == s.acted + (if acts then {m.r} else {})
      && next.replies.Keys == s.replies.Keys + (if acts then {m.r} else {})
      && next.app.commands.Keys == s.app.commands.Keys + (if m.Remember? && m.r in s.replies then {id} else {})
  {
    FirstTimeKeepsTable(s.app, events[m.r].device, events[m.r].request, events[m.r].near);
    hide FirstTime, Acceptable;
  }

  ghost predicate Misses(start: App, schedule: seq<Moment>, events: seq<Event>, r: nat, look: nat)
    requires Requests(events) && InRange(schedule, |events|) && r < |events| && look <= |schedule|
  {
    assert InRange(schedule[..look], |events|);
    IdOf(events, r) !in Play(start, schedule[..look], events).app.commands
  }

  /** A request acts exactly when its id was not in the table as it looked. */
  lemma {:induction false} ActedIff(
    start: App, schedule: seq<Moment>, events: seq<Event>, r: nat, t: Timing, n: nat)
    requires Requests(events) && InRange(schedule, |events|) && r < |events|
    requires Takes(schedule, r, t) && n <= |schedule|
    ensures InRange(schedule[..n], |events|)
    ensures
      var s := Play(start, schedule[..n], events);
      && (r in s.missed <==> t.look < n && Misses(start, schedule, events, r, t.look))
      && (r in s.acted <==> t.act < n && Misses(start, schedule, events, r, t.look))
      && (r in s.replies <==> r in s.acted)
    decreases n
  {
    hide Happens, Requests, Play, IdOf;
    if n == 0 {
      NothingYet(start, events);
      assert schedule[..0] == [];
    } else {
      ActedIff(start, schedule, events, r, t, n - 1);
      OneMoment(start, schedule, events, n);
      HappensKeys(Play(start, schedule[..n - 1], events), schedule[n - 1], events);
    }
  }

  /** An id is in the table exactly after a request of that id that missed has remembered. */
  lemma {:induction false} KnownIff(
    start: App, schedule: seq<Moment>, events: seq<Event>, times: seq<Timing>, id: string, n: nat)
    requires Requests(events) && |times| == |events| && Timed(schedule, times)
    requires id !in start.commands && n <= |schedule|
    ensures InRange(schedule[..n], |events|)
    ensures id in Play(start, schedule[..n], events).app.commands
      <==> exists q | 0 <= q < |events| ::
        IdOf(events, q) == id && times[q].remember < n && Misses(start, schedule, events, q, times[q].look)
    decreases n
  {
    hide Happens, Requests, Play, IdOf, Misses, Takes;
    if n == 0 {
      NothingYet(start, events);
      assert schedule[..0] == [];
    } else {
      KnownIff(start, schedule, events, times, id, n - 1);
      OneMoment(start, schedule, events, n);
      var m, before := schedule[n - 1], Play(start, schedule[..n - 1], events);
      HappensKeys(before, m, events);
      ActedIff(start, schedule, events, m.r, times[m.r], n - 1);
      RememberAt(schedule, times, n - 1);
    }
  }

  /** The moment at k is a remembering exactly of the request whose time for it that is. */
  lemma RememberAt(schedule: seq<Moment>, times: seq<Timing>, k: nat)
    requires Timed(schedule, times) && k < |schedule|
    ensures schedule[k].r < |times|
    ensures forall q | 0 <= q < |times| :: times[q].remember == k <==> schedule[k] == Remember(q)
    ensures schedule[k].Remember? ==> times[schedule[k].r].act < k
  {
    assert schedule[k] in schedule;
    assert Takes(schedule, schedule[k].r, times[schedule[k].r]);
    forall q | 0 <= q < |times| ensures times[q].remember == k <==> schedule[k] == Remember(q) {
      assert Takes(schedule, q, times[q]);
    }
  }

  lemma InOrder(schedule: seq<Moment>, times: seq<Timing>, r: nat)
    requires Timed(schedule, times) && r < |times|
    ensures times[r].look < times[r].act < times[r].remember < |schedule|
  {
    assert Takes(schedule, r, times[r]);
  }

  /** Of any number of requests with one id, among any others, the first to look always acts; it is the
      only one to act exactly when every other one looks after it has remembered. So the promise holds for
      requests that do not overlap the first, and only for them. */
  lemma OnlyFirstActsIff(
    start: App, schedule: seq<Moment>, events: seq<Event>, times: seq<Timing>, id: string, first: nat)
    requires Requests(events) && |times| == |events| && Timed(schedule, times)
    requires id !in start.commands && first < |events| && IdOf(events, first) == id
    requires forall r | 0 <= r < |events| && IdOf(events, r) == id :: times[first].look <= times[r].look
    ensures InRange(schedule, |events|)
    ensures
      var acted := Play(start, schedule, events).acted;
      && first in acted
      && ((forall r | 0 <= r < |events| && IdOf(events, r) == id && r in acted :: r == first)
          <==> (forall r | 0 <= r < |events| && IdOf(events, r) == id
            && r != first :: times[first].remember < times[r].look))
  {
    hide Play, Requests, IdOf, Misses, Takes, Timed;
    assert schedule[..|schedule|] == schedule;
    forall r | 0 <= r < |events|
      ensures times[r].look < times[r].act < times[r].remember < |schedule|
      ensures InRange(schedule, |events|)
      ensures r in Play(start, schedule, events).acted <==> Misses(start, schedule, events, r, times[r].look)
    {
      InOrder(schedule, times, r);
      assert Takes(schedule, r, times[r]) && InRange(schedule, |events|) by {
        TakesItsTime(schedule, times, r);
      }
      ActedIff(start, schedule, events, r, times[r], |schedule|);
    }
    forall r | 0 <= r < |events| && IdOf(events, r) == id
      ensures Misses(start, schedule, events, r, times[r].look) <==>
        !exists q | 0 <= q < |events| ::
          IdOf(events, q) == id && times[q].remember < times[r].look
            && Misses(start, schedule, events, q, times[q].look)
    {
      MissesIff(start, schedule, events, times, id, r);
    }
  }

  lemma TakesItsTime(schedule: seq<Moment>, times: seq<Timing>, r: nat)
    requires Timed(schedule, times) && r < |times|
    ensures Takes(schedule, r, times[r]) && InRange(schedule, |times|)
  {
    hide Takes;
  }

  lemma MissesIff(
    start: App, schedule: seq<Moment>, events: seq<Event>, times: seq<Timing>, id: string, r: nat)
    requires Requests(events) && |times| == |events| && Timed(schedule, times)
    requires id !in start.commands && r < |events| && IdOf(events, r) == id
    ensures InRange(schedule, |events|) && times[r].look <= |schedule|
    ensures forall q | 0 <= q < |events| :: times[q].look <= |schedule|
    ensures Misses(start, schedule, events, r, times[r].look) <==>
      !exists q | 0 <= q < |events| ::
        IdOf(events, q) == id && times[q].remember < times[r].look && Misses(start, schedule, events, q, times[q].look)
  {
    hide Play, Requests, IdOf, Takes, Timed;
    forall q | 0 <= q < |events| ensures times[q].look <= |schedule| && InRange(schedule, |events|) {
      InOrder(schedule, times, q);
      TakesItsTime(schedule, times, q);
    }
    KnownIff(start, schedule, events, times, id, times[r].look);
  }
}
