/**
 * Starting and stopping the cell (internal/gsm/manager.go). Every observation of
 * the outside world, every failure and every concurrent SMS read is a parameter.
 */
module Lifecycle {
  import opened Common
  import opened LogFiles
  import opened SmsCursor
  import opened SmsOutcome
  import opened SmsSession
  import opened RadioParams
  import opened RadioConfig

  /** A process this manager launched; the serial number makes it unique. */
  datatype Child = Child(serial: nat, name: string)

  datatype Action = Launch(child: Child) | Stop(child: Child) | Sweep(name: string)

  function Launches(children: seq<Child>): (r: seq<Action>)
    ensures |r| == |children| && forall i :: 0 <= i < |r| ==> r[i] == Launch(children[i])
  {
    seq(|children|, i requires 0 <= i < |children| => Launch(children[i]))
  }

  /** Last launched, first stopped. */
  function Stops(children: seq<Child>): (r: seq<Action>)
    ensures |r| == |children| && forall i :: 0 <= i < |r| ==> r[i] == Stop(children[|children| - 1 - i])
  {
    seq(|children|, i requires 0 <= i < |children| => Stop(children[|children| - 1 - i]))
  }

  function Names(children: seq<Child>): (r: seq<string>)
    ensures |r| == |children| && forall i :: 0 <= i < |r| ==> r[i] == children[i].name
  {
    seq(|children|, i requires 0 <= i < |children| => children[i].name)
  }

  const SERVICES: seq<string> := ["sipauthserve", "smqueue", "asterisk"]

  /** The services of the first `n` that are not running already. */
  function Missing(present: nat -> bool, n: nat): seq<string>
    requires n <= |SERVICES|
  {
    if n == 0 then [] else Missing(present, n - 1) + (if present(n - 1) then [] else [SERVICES[n - 1]])
  }

  function Unless(present: bool, name: string): seq<string> { if present then [] else [name] }

  /** What a start launches: the missing services in their order, then OpenBTS. */
  function ToLaunch(present: nat -> bool): seq<string> {
    Unless(present(0), "sipauthserve") + Unless(present(1), "smqueue") + Unless(present(2), "asterisk") + ["OpenBTS"]
  }

  lemma MissingServices(present: nat -> bool)
    ensures Missing(present, 3) + ["OpenBTS"] == ToLaunch(present)
    ensures Missing(present, 0) <= Missing(present, 1) <= Missing(present, 2) <= Missing(present, 3) <= ToLaunch(present)
  {
    assert Missing(present, 1) == Missing(present, 0) + Unless(present(0), SERVICES[0]);
    assert Missing(present, 2) == Missing(present, 1) + Unless(present(1), SERVICES[1]);
    assert Missing(present, 3) == Missing(present, 2) + Unless(present(2), SERVICES[2]);
  }

  /** The processes that Stop sweeps by name, in order. */
  function Sweeps(): seq<Action> {
    [Sweep("smqueue"), Sweep("asterisk"), Sweep("sipauthserve"), Sweep("OpenBTS"), Sweep("transceiver")]
  }

  // ---- The state machine ------------------------------------------------------------------

  /** What the manager remembers, and everything it has done to processes. */
  datatype Cell = Cell(session: Option<Session>, owned: seq<Child>, main: Option<Child>, serial: nat, trace: seq<Action>)

  /** `lost` says that the boundary of the session was lost during the event. */
  datatype Event =
    | Refused
    | RolledBack(launched: seq<Child>)
    | Started(id: string, launched: seq<Child>, lost: bool)
    | Halted(verified: bool, lost: bool)
    | Queried(lost: bool)

  function Handles(main: Option<Child>, owned: seq<Child>): seq<Child> {
    (if main.Some? then [main.value] else []) + owned
  }

  ghost predicate Fresh(children: seq<Child>, serial: nat) {
    forall i :: 0 <= i < |children| ==> children[i].serial == serial + i
  }

  /** The one thing that concurrent reads can do to a session. */
  function AfterReads(s: Option<Session>, lost: bool): Option<Session> {
    if lost && s.Some? then Some(s.value.(state := BoundaryLost)) else s
  }

  /** The session of a started cell. */
  predicate Live(s: Option<Session>, id: string, lost: bool) {
    s.Some? && s.value.id == id && s.value.ended.None? && s.value.state == (if lost then BoundaryLost else Running)
  }

  /** The session of an attempt that is still under way. */
  predicate Begun(s: Option<Session>, id: string, lost: bool) {
    && s.Some? && s.value.id == id && s.value.ended.None? && s.value.end.None?
    && s.value.state == (if lost then BoundaryLost else Starting)
  }

  /** A verified shutdown ends the session; one that had ended before is only subject to the reads. */
  predicate Closed(s: Option<Session>, lost: bool, t: Option<Session>) {
    if s.None? || s.value.ended.Some? then t == AfterReads(s, lost)
    else
      && t.Some? && t.value.id == s.value.id && t.value.start == s.value.start && t.value.ended.Some?
      && t.value.state == (if lost || s.value.state == BoundaryLost then BoundaryLost else Stopped)
  }

  ghost predicate Moves(c: Cell, e: Event, d: Cell) {
    match e
    case Refused => d == c
    case Queried(lost) => d == c.(session := AfterReads(c.session, lost))
    case RolledBack(launched) =>
      && Fresh(launched, c.serial)
      && d == c.(session := None, serial := c.serial + |launched|, trace := c.trace + Launches(launched) + Stops(launched))
    case Started(id, launched, lost) =>
      && Fresh(launched, c.serial) && |launched| > 0 && Live(d.session, id, lost)
      && d.main == Some(launched[|launched| - 1]) && d.owned == launched[..|launched| - 1]
      && d.serial == c.serial + |launched| && d.trace == c.trace + Launches(launched)
    case Halted(verified, lost) =>
      && d.main == None && d.owned == [] && d.serial == c.serial
      && d.trace == c.trace + Stops(Handles(c.main, c.owned)) + Sweeps()
      && (if verified then Closed(c.session, lost, d.session) else d.session == AfterReads(c.session, lost))
  }

  // ---- The manager ---------------------------------------------------------------------------

  /** The steps of Start that can fail. */
  datatype StartPoint =
    | Interface | Directories | Device | NetworkRule | CancelledEarly
    | Spawn(service: nat) | Wait | DiedEarly(child: nat)
    | OpenLog | SpawnMain | Ready | CancelledLate | DiedLate(child: nat) | SaveProfile

  /** One request for the current messages that arrives while the cell is starting or stopping. */
  datatype ReadCall = ReadCall(max: int, env: Environment, fails: Faults, again: Environment, failsAgain: Faults)

  /** The log as each request finds it, at its first and at its second attempt. */
  type Trail = seq<(Disk, Disk)>

  ghost predicate IsTrail(start: Cursor, requests: seq<ReadCall>, trail: Trail) {
    && |trail| == |requests|
    && (forall k :: 0 <= k < |trail| ==> IsTrailStep(start, trail[k]))
  }

  ghost predicate IsTrailStep(start: Cursor, at: (Disk, Disk)) {
    Inv(at.0) && Inv(at.1) && Later(at.0, at.1) && Sound(at.0, start)
  }

  ghost predicate LaterOn(d: Disk, e: Disk) { Inv(d) && Inv(e) && Later(d, e) }

  /** The trail lies between two states of the log, one request after the other. */
  ghost predicate During(from: Disk, trail: Trail, to: Disk)
    decreases |trail|
  {
    if trail == [] then LaterOn(from, to)
    else
      var at := trail[|trail| - 1];
      During(from, trail[..|trail| - 1], at.0) && LaterOn(at.0, at.1) && LaterOn(at.1, to)
  }

  lemma DuringMore(from: Disk, trail: Trail, at: (Disk, Disk), to: Disk)
    requires During(from, trail, at.0) && LaterOn(at.0, at.1) && LaterOn(at.1, to)
    ensures During(from, trail + [at], to)
  {
    assert (trail + [at])[..|trail|] == trail;
  }

  lemma {:induction false} DuringEarlier(d: Disk, from: Disk, trail: Trail, to: Disk)
    requires LaterOn(d, from) && During(from, trail, to)
    ensures During(d, trail, to)
    decreases |trail|
  {
    if trail == [] {
      LaterTransitive(d, from, to);
    } else {
      DuringEarlier(d, from, trail[..|trail| - 1], trail[|trail| - 1].0);
    }
  }

  /** Both attempts of the request end with the boundary error. */
  ghost predicate LosesAt(at: (Disk, Disk), c: ReadCall, start: Cursor, end: Option<Cursor>)
    requires Inv(at.0) && Inv(at.1)
  {
    c.max > 0 && Loses(at.0, at.1, start, end, c.max, c.env, c.fails, c.again, c.failsAgain)
  }

  ghost predicate LosesAny(trail: Trail, requests: seq<ReadCall>, start: Cursor, end: Option<Cursor>)
    requires IsTrail(start, requests, trail)
  {
    exists k :: 0 <= k < |trail| && LosesAt(trail[k], requests[k], start, end)
  }

  lemma TrailGrows(start: Cursor, requests: seq<ReadCall>, i: nat, trail: Trail, at: (Disk, Disk))
    requires i < |requests| && IsTrail(start, requests[..i], trail) && IsTrailStep(start, at)
    ensures IsTrail(start, requests[..i + 1], trail + [at])
  {
    var more := trail + [at];
    forall k | 0 <= k < |more| ensures IsTrailStep(start, more[k]) {
      if k < i { assert more[k] == trail[k]; }
    }
  }

  lemma TrailMore(start: Cursor, end: Option<Cursor>, requests: seq<ReadCall>, i: nat, trail: Trail, at: (Disk, Disk))
    requires i < |requests| && IsTrail(start, requests[..i], trail) && IsTrailStep(start, at)
    ensures IsTrail(start, requests[..i + 1], trail + [at])
    ensures LosesAny(trail + [at], requests[..i + 1], start, end) <==>
              LosesAny(trail, requests[..i], start, end) || LosesAt(at, requests[i], start, end)
  {
    TrailGrows(start, requests, i, trail, at);
    var more, asked := trail + [at], requests[..i + 1];
    if LosesAny(trail, requests[..i], start, end) {
      var k :| 0 <= k < i && LosesAt(trail[k], requests[..i][k], start, end);
      assert LosesAt(more[k], asked[k], start, end);
    }
    if LosesAt(at, requests[i], start, end) { assert LosesAt(more[i], asked[i], start, end); }
    if LosesAny(more, asked, start, end) {
      var k :| 0 <= k <= i && LosesAt(more[k], asked[k], start, end);
      if k < i { assert LosesAt(trail[k], requests[..i][k], start, end); }
    }
  }

  /** When nothing fails and nothing is renamed or removed during the opens, only a log that was rotated away is lost. */
  lemma CalmReadsLose(trail: Trail, requests: seq<ReadCall>, start: Cursor)
    requires IsTrail(start, requests, trail)
    requires forall k :: 0 <= k < |requests| ==>
               && requests[k].max > 0 && Calm(requests[k].env) && Calm(requests[k].again)
               && (forall p :: !requests[k].fails(p)) && (forall p :: !requests[k].failsAgain(p))
    ensures LosesAny(trail, requests, start, None) <==> exists k :: 0 <= k < |trail| && !Linked(trail[k].0, start.id)
  {
    forall k | 0 <= k < |trail| ensures LosesAt(trail[k], requests[k], start, None) <==> !Linked(trail[k].0, start.id) {
      var at, c := trail[k], requests[k];
      assert IsTrailStep(start, at);
      SoundStable(at.0, at.1, start);
      CalmFailure(at.0, c.env, c.fails, start, None, c.max);
      CalmFailure(at.1, c.again, c.failsAgain, start, None, c.max);
      if !Linked(at.0, start.id) && Linked(at.1, start.id) { LinkedBefore(at.0, at.1, start.id); }
    }
  }

  /** A reader of the configuration table sees these parameters. */
  ghost predicate Shows(rows: seq<Row>, p: Params) { Rebuilt(rows).(network := p.network) == p }

  /** The checks before the launch pass, and the eight settings can be written. */
  ghost predicate Prepared(rows: seq<Row>, fails: StartPoint -> bool, configFails: nat -> bool) {
    && !fails(Interface) && !fails(Directories) && !fails(Device) && !fails(NetworkRule)
    && AllKeysOnce(rows) && (forall k :: 0 <= k <= 9 ==> !configFails(k))
    && !fails(CancelledEarly)
  }

  /** Every missing service and OpenBTS can be launched, and all of them stay alive until the end. */
  ghost predicate Launchable(present: nat -> bool, fails: StartPoint -> bool) {
    && (present(0) || !fails(StartPoint.Spawn(0))) && (present(1) || !fails(StartPoint.Spawn(1)))
    && (present(2) || !fails(StartPoint.Spawn(2)))
    && !fails(Wait) && (forall i :: 0 <= i < |ToLaunch(present)| - 1 ==> !fails(DiedEarly(i)))
    && !fails(OpenLog) && !fails(SpawnMain) && !fails(Ready) && !fails(CancelledLate)
    && (forall i :: 0 <= i < |ToLaunch(present)| ==> !fails(DiedLate(i)))
  }

  /** The session can begin, the launch succeeds, and the profile can be saved. */
  ghost predicate Attemptable(d: Disk, present: nat -> bool, fails: StartPoint -> bool, env: Environment, sessionFails: Faults)
    requires Inv(d)
  {
    Marks(d, true, env, sessionFails) && !sessionFails(RandomId) && Launchable(present, fails) && !fails(SaveProfile)
  }

  class Manager {
    const sms: SmsManager
    const table: ConfigTable
    var main: Option<Child>
    var owned: seq<Child>
    var up: bool
    var last: Option<Params>
    var serial: nat
    var trace: seq<Action>

    constructor (sms: SmsManager, table: ConfigTable)
      ensures this.sms == sms && this.table == table && main == None && owned == [] && !up
      ensures serial == 0 && trace == []
    {
      this.sms, this.table := sms, table;
      main, owned, up, last, serial, trace := None, [], false, None, 0, [];
    }

    ghost function Now(): Cell
      reads this, sms
    {
      Cell(sms.session, owned, main, serial, trace)
    }

    ghost predicate Valid()
      reads this, sms, sms.dir
    {
      sms.Valid()
    }

    /** stopManagedReverse. */
    method StopReverse(children: seq<Child>)
      modifies this`trace
      ensures trace == old(trace) + Stops(children)
    {
      var i := |children|;
      while i > 0
        invariant 0 <= i <= |children|
        invariant trace == old(trace) + Stops(children)[..|children| - i]
      {
        i := i - 1;
        trace := trace + [Stop(children[i])];
      }
      assert Stops(children)[..|children|] == Stops(children);
    }

    /** One read; `at` is the log at its two attempts. */
    method Query(r: ReadCall) returns (ghost lost: bool, ghost at: (Disk, Disk))
      requires Valid()
      modifies sms, sms.dir
      ensures Valid() && at.0 == old(sms.dir.d) && LaterOn(at.0, at.1) && LaterOn(at.1, sms.dir.d)
      ensures LaterOn(at.0, sms.dir.d) && sms.session == AfterReads(old(sms.session), lost)
      ensures var s := old(sms.session);
              lost <==> s.Some? && s.value.state != BoundaryLost && LosesAt(at, r, s.value.start, s.value.end)
    {
      ghost var d, session := sms.dir.d, sms.session;
      var reply;
      ghost var cut, sample, resampled, second;
      reply, cut, sample, resampled, second := sms.ReadCurrent(r.max, r.env, r.fails, r.again, r.failsAgain);
      LaterTransitive(d, second, sms.dir.d);
      at := (d, second);
      lost := session.Some? && session.value.state != BoundaryLost && LosesAt(at, r, session.value.start, session.value.end);
    }

    /**
     * SMS reads do not wait for the lifecycle. They change nothing but the state of
     * a session whose boundary is still known, and that exactly if one of them loses it.
     */
    method Interfere(requests: seq<ReadCall>) returns (ghost lost: bool, ghost trail: Trail)
      requires Valid()
      modifies sms, sms.dir
      ensures Valid() && Later(old(sms.dir.d), sms.dir.d) && sms.session == AfterReads(old(sms.session), lost)
      ensures old(sms.session).None? || old(sms.session).value.state == BoundaryLost ==> !lost
      ensures old(sms.session).Some? && old(sms.session).value.state != BoundaryLost ==>
                var s := old(sms.session).value;
                && IsTrail(s.start, requests, trail) && During(old(sms.dir.d), trail, sms.dir.d)
                && (lost <==> LosesAny(trail, requests, s.start, s.end))
    {
      lost, trail := false, [];
      LaterReflexive(sms.dir.d);
      ghost var session, before := sms.session, sms.dir.d;
      ghost var known := session.Some? && session.value.state != BoundaryLost;
      var i := 0;
      while i < |requests|
        invariant 0 <= i <= |requests| && Valid() && Later(before, sms.dir.d)
        invariant sms.session == AfterReads(session, lost) && (!known ==> !lost)
        invariant known ==> IsTrail(session.value.start, requests[..i], trail) && During(before, trail, sms.dir.d)
        invariant known ==> (lost <==> LosesAny(trail, requests[..i], session.value.start, session.value.end))
      {
        ghost var d := sms.dir.d;
        ghost var loses, at := Query(requests[i]);
        LaterTransitive(before, d, sms.dir.d);
        if known {
          SoundStable(before, d, session.value.start);
          lost := lost || LosesAt(at, requests[i], session.value.start, session.value.end);
          DuringMore(before, trail, at, sms.dir.d);
          TrailMore(session.value.start, session.value.end, requests, i, trail, at);
          trail := trail + [at];
        }
        i := i + 1;
      }
      assert requests[..i] == requests;
    }

    /** This attempt has launched exactly these children, in this order. */
    ghost predicate Progress(c: Cell, launched: seq<Child>)
      reads this
    {
      && trace == c.trace + Launches(launched) && serial == c.serial + |launched| && Fresh(launched, c.serial)
      && main == c.main && owned == c.owned
    }

    /** Launches one process and takes charge of it. */
    method Spawn(launched: seq<Child>, name: string, ghost c: Cell) returns (r: seq<Child>)
      requires Progress(c, launched)
      modifies this`serial, this`trace
      ensures Progress(c, r) && |r| == |launched| + 1 && Names(r) == Names(launched) + [name]
    {
      var child := Child(serial, name);
      r := launched + [child];
      assert Launches(r) == Launches(launched) + [Launch(child)];
      trace := trace + [Launch(child)];
      serial := serial + 1;
    }

    /** A service that is already running is left alone. */
    method SpawnService(launched: seq<Child>, n: nat, present: nat -> bool, fails: bool, ghost c: Cell)
      returns (ok: bool, r: seq<Child>)
      requires Progress(c, launched) && n < |SERVICES| && Names(launched) == Missing(present, n)
      modifies this`serial, this`trace
      ensures Progress(c, r) && (ok <==> present(n) || !fails)
      ensures Names(r) == Missing(present, if ok then n + 1 else n)
    {
      ok, r := true, launched;
      if !present(n) {
        if fails { return false, launched; }
        r := Spawn(launched, SERVICES[n], c);
      }
    }

    /** The services, until they are known to have survived their start. */
    method LaunchServices(present: nat -> bool, fails: StartPoint -> bool, ghost c: Cell)
      returns (ok: bool, launched: seq<Child>)
      requires Progress(c, [])
      modifies this`serial, this`trace
      ensures Progress(c, launched) && Names(launched) <= Missing(present, 3)
      ensures ok ==> Names(launched) == Missing(present, 3)
      ensures ok <==> && (present(0) || !fails(StartPoint.Spawn(0))) && (present(1) || !fails(StartPoint.Spawn(1)))
                      && (present(2) || !fails(StartPoint.Spawn(2)))
                      && !fails(Wait) && forall i :: 0 <= i < |Missing(present, 3)| ==> !fails(DiedEarly(i))
    {
      MissingServices(present);
      ok, launched := SpawnService([], 0, present, fails(StartPoint.Spawn(0)), c);
      if !ok { return; }
      ok, launched := SpawnService(launched, 1, present, fails(StartPoint.Spawn(1)), c);
      if !ok { return; }
      ok, launched := SpawnService(launched, 2, present, fails(StartPoint.Spawn(2)), c);
      if !ok { return; }
      assert |Names(launched)| == |launched|;
      if fails(Wait) || exists i :: 0 <= i < |launched| && fails(DiedEarly(i)) { return false, launched; }
    }

    /** The launch itself, from the services to the moment OpenBTS is known to be up. */
    method LaunchAll(present: nat -> bool, fails: StartPoint -> bool, ghost c: Cell)
      returns (ok: bool, launched: seq<Child>)
      requires Progress(c, [])
      modifies this`serial, this`trace
      ensures Progress(c, launched) && Names(launched) <= ToLaunch(present)
      ensures ok ==> launched != [] && Names(launched) == ToLaunch(present)
      ensures ok <==> Launchable(present, fails)
    {
      MissingServices(present);
      ok, launched := LaunchServices(present, fails, c);
      if !ok { return; }
      if fails(OpenLog) || fails(SpawnMain) { return false, launched; }
      launched := Spawn(launched, "OpenBTS", c);
      assert |Names(launched)| == |launched|;
      if fails(Ready) || fails(CancelledLate) { return false, launched; }
      ok := !exists i :: 0 <= i < |launched| && fails(DiedLate(i));
    }

    /** The checks before anything is launched; the configuration is written here. */
    method Prepare(p: Params, fails: StartPoint -> bool, configFails: nat -> bool) returns (ok: bool)
      modifies table
      ensures ok ==> Shows(table.rows, p)
      ensures SameKeys(old(table.rows), table.rows)
      ensures ok <==> Prepared(old(table.rows), fails, configFails)
    {
      if fails(Interface) || fails(Directories) || fails(Device) || fails(NetworkRule) { return false; }
      ok := table.ApplyConfig(p, configFails);
      ok := ok && !fails(CancelledEarly);
    }

    /** Begins the session, then launches; what it launched is for the caller to keep or stop. */
    method Attempt(id: string, now: int, present: nat -> bool, fails: StartPoint -> bool,
                   env: Environment, sessionFails: Faults, requests: seq<ReadCall>, ghost c: Cell)
      returns (ok: bool, launched: seq<Child>, ghost lost: bool, ghost trail: Trail)
      requires Valid() && Progress(c, []) && sms.session.None?
      modifies this`serial, this`trace, sms, sms.dir
      ensures Valid() && Progress(c, launched) && Names(launched) <= ToLaunch(present)
      ensures ok ==> launched != [] && Names(launched) == ToLaunch(present) && Begun(sms.session, id, lost)
      ensures ok ==> sms.session.value.started == now
      ensures ok ==> var start := sms.session.value.start;
                     && IsTrail(start, requests, trail) && During(old(sms.dir.d), trail, sms.dir.d)
                     && (lost <==> LosesAny(trail, requests, start, None))
      ensures ok == Attemptable(old(sms.dir.d), present, fails, env, sessionFails)
    {
      launched, lost, trail := [], false, [];
      ghost var before := sms.dir.d;
      ok := sms.BeginSession(id, now, env, sessionFails);
      if !ok { return; }
      ghost var begun := sms.dir.d;
      ok, launched := LaunchAll(present, fails, c);
      lost, trail := Interfere(requests);
      DuringEarlier(before, begun, trail, sms.dir.d);
      ok := ok && !fails(SaveProfile);
    }

    /** The deferred rollback: this attempt's children in reverse order, then its session. */
    method RollBack(launched: seq<Child>, ghost c: Cell)
      requires Valid() && Progress(c, launched)
      modifies this`trace, sms
      ensures Valid() && Moves(c, RolledBack(launched), Now())
    {
      StopReverse(launched);
      ClearSession();
    }

    /** The end of a successful start. */
    method Adopt(launched: seq<Child>, p: Params, id: string, ghost lost: bool, ghost c: Cell)
      requires Valid() && Progress(c, launched) && launched != [] && Begun(sms.session, id, lost)
      modifies this, sms
      ensures Valid() && Moves(c, Started(id, launched, lost), Now()) && up && last == Some(p)
      ensures sms.session.value.start == old(sms.session).value.start && sms.session.value.started == old(sms.session).value.started
    {
      up, last := true, Some(p);
      main, owned := Some(launched[|launched| - 1]), launched[..|launched| - 1];
      CommitSession(id, lost);
    }

    method CommitSession(ghost id: string, ghost lost: bool)
      requires Valid() && Begun(sms.session, id, lost)
      modifies sms
      ensures Valid() && Live(sms.session, id, lost) && sms.session.value.start == old(sms.session).value.start
      ensures sms.session.value.started == old(sms.session).value.started
    {
      sms.CommitSession();
    }

    method ClearSession()
      requires Valid()
      modifies sms
      ensures Valid() && sms.session.None?
    {
      sms.ClearSession();
    }

    /** An accepted attempt: all of it, or nothing left behind. */
    method StartAccepted(p: Params, id: string, now: int, present: nat -> bool,
                         fails: StartPoint -> bool, configFails: nat -> bool,
                         env: Environment, sessionFails: Faults, requests: seq<ReadCall>)
      returns (ok: bool, ghost e: Event, ghost trail: Trail)
      requires Valid()
      modifies this, sms, sms.dir, table
      ensures Valid() && Moves(old(Now()), e, Now())
      ensures SameKeys(old(table.rows), table.rows)
      ensures e.RolledBack? || (e.Started? && e.id == id && Names(e.launched) == ToLaunch(present))
      ensures e.RolledBack? ==> Names(e.launched) <= ToLaunch(present)
      ensures ok <==> e.Started?
      ensures if ok then up && last == Some(p) && Shows(table.rows, p) else up == old(up) && last == old(last)
      ensures ok ==> var start := sms.session.value.start;
                     && IsTrail(start, requests, trail) && During(old(sms.dir.d), trail, sms.dir.d)
                     && (e.lost <==> LosesAny(trail, requests, start, None))
      ensures ok ==> sms.session.value.started == now
      ensures ok == (Prepared(old(table.rows), fails, configFails) && Attemptable(old(sms.dir.d), present, fails, env, sessionFails))
    {
      ghost var c := Now();
      trail := [];
      ghost var lost := false;
      ClearSession();
      var launched: seq<Child> := [];
      ok := Prepare(p, fails, configFails);
      assert Launches([]) == [] && Progress(c, []);
      if ok { ok, launched, lost, trail := Attempt(id, now, present, fails, env, sessionFails, requests, c); }
      if ok { Adopt(launched, p, id, lost, c); } else { RollBack(launched, c); }
      e := if ok then Started(id, launched, lost) else RolledBack(launched);
    }

    /** Start. */
    method Start(p: Params, id: string, now: int, cancelled: bool, running: bool, present: nat -> bool,
                 fails: StartPoint -> bool, configFails: nat -> bool,
                 env: Environment, sessionFails: Faults, requests: seq<ReadCall>)
      returns (ok: bool, ghost e: Event, ghost trail: Trail)
      requires Valid()
      modifies this, sms, sms.dir, table
      ensures Valid() && Moves(old(Now()), e, Now())
      ensures e.Refused? <==> !RadioParams.Valid(p) || cancelled || running
      ensures SameKeys(old(table.rows), table.rows)
      ensures e.Refused? || e.RolledBack? || (e.Started? && e.id == id && Names(e.launched) == ToLaunch(present))
      ensures e.RolledBack? ==> Names(e.launched) <= ToLaunch(present)
      ensures ok <==> e.Started?
      ensures e.Refused? ==> table.rows == old(table.rows)
      ensures if ok then up && last == Some(p) && Shows(table.rows, p) else up == old(up) && last == old(last)
      ensures ok ==> var start := sms.session.value.start;
                     && IsTrail(start, requests, trail) && During(old(sms.dir.d), trail, sms.dir.d)
                     && (e.lost <==> LosesAny(trail, requests, start, None))
      ensures ok ==> sms.session.value.started == now
      ensures ok == (!e.Refused? && Prepared(old(table.rows), fails, configFails)
                     && Attemptable(old(sms.dir.d), present, fails, env, sessionFails))
    {
      ok, e, trail := false, Refused, [];
      var issue := Validate(p);
      if issue.Some? || cancelled || running { return; }
      ok, e, trail := StartAccepted(p, id, now, present, fails, configFails, env, sessionFails, requests);
    }

    /** stopLocked. `was` and `verified` are what the process table shows before and after. */
    method StopCell(was: bool, verified: bool, now: int, env: Environment, fails: Faults, requests: seq<ReadCall>)
      returns (stopped: bool, ghost lost: bool, ghost trail: Trail, ghost asked: Disk)
      requires Valid()
      modifies this, sms, sms.dir
      ensures Valid() && Moves(old(Now()), Halted(verified, lost), Now())
      ensures trace == old(trace) + Stops(old(owned)) + (if old(main).Some? then [Stop(old(main).value)] else [])
                       + [Sweep("smqueue"), Sweep("asterisk"), Sweep("sipauthserve"), Sweep("OpenBTS"), Sweep("transceiver")]
      ensures verified && old(sms.session).Some? && old(sms.session).value.ended.None? ==>
                sms.session.Some? && sms.session.value.ended == Some(now)
      ensures stopped == (was && verified)
      ensures up == (old(up) && !verified) && last == old(last)
      ensures Inv(asked) && Later(old(sms.dir.d), asked) && Later(asked, sms.dir.d)
      ensures old(sms.session).Some? && old(sms.session).value.state != BoundaryLost ==>
                var s := old(sms.session).value;
                && IsTrail(s.start, requests, trail) && During(old(sms.dir.d), trail, asked)
                && (lost <==> LosesAny(trail, requests, s.start, s.end)
                              || (verified && s.ended.None? && !Marks(asked, false, env, fails)))
    {
      ghost var c := Now();
      StopProcesses();
      lost, trail := Interfere(requests);
      asked := sms.dir.d;
      LaterReflexive(asked);
      if verified {
        up := false;
        ghost var s := sms.session;
        EndSession(now, env, fails);
        if s.Some? && s.value.ended.None? && s.value.state != BoundaryLost { lost := lost || !Marks(asked, false, env, fails); }
      }
      stopped := was && verified;
    }

    method StopProcesses()
      modifies this`trace, this`owned, this`main
      ensures main == None && owned == []
      ensures trace == old(trace) + Stops(Handles(old(main), old(owned))) + Sweeps()
      ensures trace == old(trace) + Stops(old(owned)) + (if old(main).Some? then [Stop(old(main).value)] else [])
                       + [Sweep("smqueue"), Sweep("asterisk"), Sweep("sipauthserve"), Sweep("OpenBTS"), Sweep("transceiver")]
    {
      ghost var handles := Stops(Handles(main, owned));
      assert handles == Stops(owned) + (if main.Some? then [Stop(main.value)] else []);
      StopReverse(owned);
      owned := [];
      if main.Some? { trace := trace + [Stop(main.value)]; }
      assert trace == old(trace) + handles;
      main := None;
      trace := trace + Sweeps();
    }

    method EndSession(now: int, env: Environment, fails: Faults)
      requires Valid()
      modifies sms, sms.dir
      ensures Valid() && Later(old(sms.dir.d), sms.dir.d)
      ensures var s := old(sms.session);
              Closed(s, s.Some? && s.value.ended.None? && s.value.state != BoundaryLost && !Marks(old(sms.dir.d), false, env, fails),
                     sms.session)
      ensures old(sms.session).Some? && old(sms.session).value.ended.None? ==>
                sms.session.Some? && sms.session.value.ended == Some(now)
    {
      sms.EndSession(now, env, fails);
    }
  }
}
