/**
 * The session window of one cell launch (internal/gsm/sms_session.go): begin,
 * commit, end, clear and read, against a collector that acts at any time.
 */
module SmsSession {
  import opened Common
  import opened LineWindow
  import opened LogFiles
  import opened SmsCursor
  import opened SmsOutcome
  import opened SmsWindow
  import opened SmsSpan

  datatype State = Starting | Running | Stopped | BoundaryLost

  /** smsSession; times are opaque numbers. */
  datatype Session = Session(id: string, start: Cursor, end: Option<Cursor>, started: int, ended: Option<int>, state: State)

  datatype ReplyError = BadBudget | ReadFailed

  /** The result of ReadCurrentSMS; no state stands for "none". */
  datatype Reply = Reply(data: seq<byte>, truncated: bool, state: Option<State>, id: Option<string>,
                         ended: Option<int>, error: Option<ReplyError>)

  // ---- Invariant ----------------------------------------------------------------

  ghost predicate SessionInv(d: Disk, s: Session) {
    && Sound(d, s.start)
    && (s.end.Some? ==>
          && s.ended.Some? && Sound(d, s.end.value) && s.start.id <= s.end.value.id
          && (s.start.id == s.end.value.id ==> s.start.offset <= s.end.value.offset))
    && (s.ended.Some? <==> s.state == Stopped || (s.state == BoundaryLost && s.ended.Some?))
    && (s.state == Stopped ==> s.end.Some?)
  }

  datatype System = System(d: Disk, session: Option<Session>)

  ghost predicate SystemInv(s: System) {
    Inv(s.d) && (s.session.Some? ==> SessionInv(s.d, s.session.value))
  }

  lemma SessionStable(d: Disk, e: Disk, s: Session)
    requires Inv(d) && Later(d, e) && SessionInv(d, s)
    ensures SessionInv(e, s)
  {
    SoundStable(d, e, s.start);
    if s.end.Some? { SoundStable(d, e, s.end.value); }
  }

  // ---- Reading with one resample --------------------------------------------------

  /** What a read that began in `d` and is over in `e` has seen, by its deciding attempt. */
  ghost predicate SampleSaw(d: Disk, e: Disk, sample: Sample, start: Cursor, end: Option<Cursor>, cut: Cut) {
    && Inv(sample.begun)
    && Saw(d, e, start, end, Quiet(sample.env), Overtaken(sample.begun, sample.env, start, end), cut)
  }

  /** Both attempts end with the boundary error, so the session is lost. */
  ghost predicate Loses(first: Disk, second: Disk, start: Cursor, end: Option<Cursor>, max: nat,
                        env: Environment, fails: Faults, again: Environment, failsAgain: Faults)
    requires Inv(first) && Inv(second)
  {
    BoundaryFails(first, env, fails, start, end, max) && BoundaryFails(second, again, failsAgain, start, end, max)
  }

  /**
   * readSMSSpanUsing: a lost boundary is looked for once more. `second` is the
   * log when the second attempt begins, if there is one.
   */
  method ReadSpan(dir: LogDir, start: Cursor, end: Option<Cursor>, max: nat,
                  env: Environment, fails: Faults, again: Environment, failsAgain: Faults)
    returns (r: Attempt, ghost cut: Cut, ghost sample: Sample, ghost resampled: bool, ghost second: Disk)
    requires Inv(dir.d) && Sound(dir.d, start) && (end.Some? ==> Sound(dir.d, end.value))
    modifies dir
    ensures Inv(second) && Later(old(dir.d), second) && Later(second, dir.d)
    ensures Inv(dir.d) && Later(old(dir.d), dir.d)
    ensures resampled <==> BoundaryFails(old(dir.d), env, fails, start, end, max)
    ensures r == Failed(Boundary) <==> Loses(old(dir.d), second, start, end, max, env, fails, again, failsAgain)
    ensures sample == if resampled then Sample(second, again, failsAgain) else Sample(old(dir.d), env, fails)
    ensures Gives(sample, start, end, max, r, cut)
    ensures r.Ok? ==> Accepted(dir.d, start, end, max, cut, r.data, r.truncated)
    ensures r.Ok? ==> SampleSaw(old(dir.d), dir.d, sample, start, end, cut)
    ensures Still(env) && Still(again) ==> dir.d == old(dir.d)
  {
    ghost var before := dir.d;
    LaterReflexive(before);
    r, cut := AttemptRead(dir, before, start, end, max, env, fails);
    second, sample := dir.d, Sample(before, env, fails);
    LaterReflexive(second);
    resampled := false;
    if r == Failed(Boundary) {
      resampled, sample := true, Sample(second, again, failsAgain);
      r, cut := AttemptRead(dir, before, start, end, max, again, failsAgain);
    }
  }

  /** One attempt of a read that began in `before`. */
  method AttemptRead(dir: LogDir, ghost before: Disk, start: Cursor, end: Option<Cursor>, max: nat,
                     env: Environment, fails: Faults)
    returns (r: Attempt, ghost cut: Cut)
    requires Inv(before) && Inv(dir.d) && Later(before, dir.d)
    requires Sound(before, start) && (end.Some? ==> Sound(before, end.value))
    modifies dir
    ensures Inv(dir.d) && Later(before, dir.d) && Later(old(dir.d), dir.d)
    ensures Outcome(old(dir.d), env, fails, start, end, max, r, cut)
    ensures r == Failed(Boundary) <==> BoundaryFails(old(dir.d), env, fails, start, end, max)
    ensures r.Ok? ==> Accepted(dir.d, start, end, max, cut, r.data, r.truncated)
    ensures r.Ok? ==> SampleSaw(before, dir.d, Sample(old(dir.d), env, fails), start, end, cut)
    ensures Still(env) ==> dir.d == old(dir.d)
  {
    ghost var begun := dir.d;
    SoundStable(before, begun, start);
    if end.Some? { SoundStable(before, begun, end.value); }
    r, cut := ReadSpanOnce(dir, start, end, max, env, fails);
    LaterTransitive(before, begun, dir.d);
    if r.Ok? { AttemptSaw(before, begun, env, start, end, dir.d); }
  }

  /** On a calm log and without faults an attempt fails only if the window has become unreachable. */
  lemma CalmFailure(d: Disk, env: Environment, fails: Faults, start: Cursor, end: Option<Cursor>, max: nat)
    requires Inv(d) && Sound(d, start) && (end.Some? ==> Sound(d, end.value))
    requires Calm(env) && (forall p :: !fails(p))
    ensures BoundaryFails(d, env, fails, start, end, max) <==> !Reachable(d, start, end)
  {
    CalmCovers(d, env, start, end);
    if Covering(OpenIds(d, env), start, end) { CoveredInFiles(d, env, start, end); }
  }

  /** ... and it stays unreachable. */
  lemma CalmLoss(d: Disk, e: Disk, env: Environment, fails: Faults, start: Cursor, end: Option<Cursor>, max: nat)
    requires Inv(d) && Later(d, e) && Sound(d, start) && (end.Some? ==> Sound(d, end.value))
    requires Calm(env) && (forall p :: !fails(p)) && BoundaryFails(d, env, fails, start, end, max)
    ensures !Reachable(e, start, end)
  {
    CalmFailure(d, env, fails, start, end, max);
    if Reachable(e, start, end) { ReachableBefore(d, e, start, end); }
  }

  /** What calm and fault-free attempts add to `Loses`. */
  lemma CalmCases(first: Disk, second: Disk, e: Disk, start: Cursor, end: Option<Cursor>, max: nat,
                  env: Environment, fails: Faults, again: Environment, failsAgain: Faults)
    requires Inv(first) && Inv(second) && Later(first, second) && Later(second, e)
    requires Sound(first, start) && (end.Some? ==> Sound(first, end.value))
    ensures Calm(env) && (forall p :: !fails(p)) && Reachable(first, start, end) ==>
              !OpenFault(first, env, fails) && !BoundaryFails(first, env, fails, start, end, max)
    ensures Calm(again) && (forall p :: !failsAgain(p)) && Loses(first, second, start, end, max, env, fails, again, failsAgain) ==>
              !Reachable(e, start, end)
  {
    if Calm(env) && (forall p :: !fails(p)) { CalmFailure(first, env, fails, start, end, max); }
    SoundStable(first, second, start);
    if end.Some? { SoundStable(first, second, end.value); }
    if Calm(again) && (forall p :: !failsAgain(p)) && BoundaryFails(second, again, failsAgain, start, end, max) {
      CalmLoss(second, e, again, failsAgain, start, end, max);
    }
  }

  // ---- The transition relation ------------------------------------------------------

  datatype Event =
    | Log
    | Begin(id: string)
    | BeginFailed
    | Commit
    | End
    | Clear
    /** `sample` is the attempt that decided the answer. */
    | Read(max: int, sample: Sample, cut: Cut, reply: Reply)

  ghost predicate Next(s: System, e: Event, t: System) {
    && SystemInv(s) && SystemInv(t) && Later(s.d, t.d)
    && match e
       case Log => t.session == s.session
       case Begin(id) =>
         && t.session.Some?
         && var n := t.session.value;
            && n == Session(id, n.start, None, n.started, None, Starting)
            && |Stream(s.d)| <= Pos(t.d, n.start)
       case BeginFailed => t.session == s.session
       case Commit =>
         t.session == if s.session.Some? && s.session.value.state == Starting
                      then Some(s.session.value.(state := Running)) else s.session
       case End =>
         if s.session.None? || s.session.value.ended.Some? then t.session == s.session
         else
           && t.session.Some?
           && var o, n := s.session.value, t.session.value;
              && n.ended.Some? && n.id == o.id && n.start == o.start && n.started == o.started
              && (if n.end.Some? then o.state != BoundaryLost && n.state == Stopped && |Stream(s.d)| <= Pos(t.d, n.end.value)
                  else n.state == BoundaryLost)
       case Clear => t.session == None
       case Read(max, sample, cut, reply) => ReadNext(s, max, sample, cut, reply, t)
  }

  /** What a read may answer and how it may change the session. */
  ghost predicate ReadNext(s: System, max: int, sample: Sample, cut: Cut, r: Reply, t: System)
    requires SystemInv(s) && SystemInv(t)
  {
    if max <= 0 then t.session == s.session && r == Reply([], false, None, None, None, Some(BadBudget))
    else if s.session.None? then t.session == None && r == Reply([], false, None, None, None, None)
    else
      var o := s.session.value;
      && t.session.Some? && t.session.value == o.(state := t.session.value.state)
      && r.state == Some(t.session.value.state) && r.id == Some(o.id) && r.ended == o.ended
      && (t.session.value.state == o.state || t.session.value.state == BoundaryLost)
      && (t.session.value.state == BoundaryLost ==> r.data == [] && r.truncated && r.error == None)
      && (r.error.Some? ==> r.error == Some(ReadFailed) && r.data == [])
      && (Answered(r) ==>
            && Accepted(t.d, o.start, o.end, max, cut, r.data, r.truncated)
            && Gives(sample, o.start, o.end, max, Ok(r.data, r.truncated), cut) && Later(s.d, sample.begun)
            && SampleSaw(s.d, t.d, sample, o.start, o.end, cut))
  }

  /** The outcome of the deciding attempt that a reply to a live session stands for. */
  function AttemptOf(r: Reply): Attempt {
    if r.error.Some? then Failed(Io) else if r.state == Some(BoundaryLost) then Failed(Boundary) else Ok(r.data, r.truncated)
  }

  /** The read reached the log and its boundary. */
  predicate Answered(r: Reply) {
    r.error == None && r.state.Some? && r.state != Some(BoundaryLost)
  }

  /** The log is there to be opened, and both calls succeed. */
  ghost predicate Marks(d: Disk, create: bool, env: Environment, fails: Faults)
    requires Inv(d)
  {
    !fails(Open(0)) && (create || Run(d, env(Open(0))).current.Some?) && !fails(Stat(0))
  }

  /** The active log is opened, or created if `create`, and its end is marked. */
  method MarkEnd(dir: LogDir, create: bool, env: Environment, fails: Faults) returns (ok: bool, c: Cursor)
    requires Inv(dir.d)
    modifies dir
    ensures Inv(dir.d) && Later(old(dir.d), dir.d)
    ensures ok ==> Sound(dir.d, c) && |Stream(old(dir.d))| <= Pos(dir.d, c)
    ensures ok ==> |old(dir.d).files| <= c.id + 1
    ensures ok && c.id < |old(dir.d).files| ==> |old(dir.d).files[c.id]| <= c.offset
    ensures ok <==> Marks(old(dir.d), create, env, fails)
    ensures ok ==> c.id < |dir.d.files| && c == Mark(dir.d, c.id)
    ensures ok && Still(env) ==>
              dir.d == (if create then Run(old(dir.d), [Create]) else old(dir.d)) && dir.d.current == Some(c.id)
  {
    ghost var before := dir.d;
    LaterReflexive(before);
    c := Cursor(0, 0, []);
    dir.Advance(before, env(Open(0)));
    if fails(Open(0)) { return false, c; }
    if create {
      CreateNames(dir.d);
      dir.Advance(before, [Create]);
    }
    if dir.d.current.None? { return false, c; }
    var path := dir.d.current.value;
    ghost var atOpen := dir.d;
    LaterReflexive(atOpen);
    dir.Advance(atOpen, env(Stat(0)));
    LaterTransitive(before, atOpen, dir.d);
    MarkedLate(before, atOpen, dir.d, path);
    if fails(Stat(0)) { return false, c; }
    ok, c := true, Mark(dir.d, path);
  }

  /** A mark taken after an open lies at or after everything logged before the open. */
  lemma MarkedLate(before: Disk, atOpen: Disk, d: Disk, path: nat)
    requires Inv(before) && Later(before, atOpen) && Inv(atOpen) && Later(atOpen, d) && Later(before, d)
    requires atOpen.current == Some(path)
    ensures path < |d.files| && Sound(d, Mark(d, path)) && |Stream(before)| <= Pos(d, Mark(d, path))
    ensures |before.files| <= path + 1
    ensures path < |before.files| ==> |before.files[path]| <= |d.files[path]|
  {
    FileInStream(atOpen, path);
    StreamGrows(before, atOpen);
    LaterFile(atOpen, d, path);
    StreamGrows(atOpen, d);
    if path < |before.files| { LaterFile(before, d, path); }
  }

  lemma CreateNames(d: Disk)
    requires Inv(d)
    ensures Run(d, [Create]).current.Some?
  {
    assert Run(d, [Create]) == Run(Apply(d, Create), [Create][1..]);
  }

  // ---- The manager --------------------------------------------------------------------

  class SmsManager {
    const dir: LogDir
    var session: Option<Session>

    ghost predicate Valid()
      reads this, dir
    {
      SystemInv(System(dir.d, session))
    }

    ghost function Now(): System
      reads this, dir
    {
      System(dir.d, session)
    }

    constructor (dir: LogDir)
      requires Inv(dir.d)
      ensures this.dir == dir && Valid() && session == None
    {
      this.dir := dir;
      session := None;
    }

    method ClearSession()
      requires Valid()
      modifies this
      ensures Next(old(Now()), Clear, Now())
    {
      LaterReflexive(dir.d);
      session := None;
    }

    /** The log is created if missing and its end becomes the start of a new session. */
    method BeginSession(id: string, now: int, env: Environment, fails: Faults) returns (ok: bool)
      requires Valid()
      modifies this, dir
      ensures Next(old(Now()), if ok then Begin(id) else BeginFailed, Now())
      ensures ok <==> Marks(old(dir.d), true, env, fails) && !fails(RandomId)
      ensures ok ==> session.value.started == now
      ensures ok && Still(env) ==>
                && dir.d == Run(old(dir.d), [Create]) && dir.d.current.Some?
                && session == Some(Session(id, Mark(dir.d, dir.d.current.value), None, now, None, Starting))
    {
      ghost var before := dir.d;
      var start;
      ok, start := MarkEnd(dir, true, env, fails);
      if session.Some? { SessionStable(before, dir.d, session.value); }
      ok := ok && !fails(RandomId);
      if ok {
        session := Some(Session(id, start, None, now, None, Starting));
      }
    }

    method CommitSession()
      requires Valid()
      modifies this
      ensures Next(old(Now()), Commit, Now())
    {
      LaterReflexive(dir.d);
      if session.Some? && session.value.state == Starting {
        session := Some(session.value.(state := Running));
      }
    }

    /** The end of the log becomes the end of the session, if it can be marked. */
    method EndSession(now: int, env: Environment, fails: Faults)
      requires Valid()
      modifies this, dir
      ensures Next(old(Now()), End, Now())
      ensures old(session).Some? && old(session).value.ended.None? ==>
                session.Some? && session.value.state ==
                  (if old(session).value.state != BoundaryLost && Marks(old(dir.d), false, env, fails) then Stopped
                   else BoundaryLost)
      ensures old(session).Some? && old(session).value.ended.None? ==> session.Some? && session.value.ended == Some(now)
    {
      ghost var before := dir.d;
      LaterReflexive(before);
      if session.None? || session.value.ended.Some? { return; }
      session := Some(session.value.(ended := Some(now)));
      if session.value.state == BoundaryLost { return; }
      var marked, end := MarkEnd(dir, false, env, fails);
      SoundStable(before, dir.d, session.value.start);
      if marked {
        session := Some(session.value.(end := Some(end), state := Stopped));
      } else {
        session := Some(session.value.(state := BoundaryLost));
      }
    }

    /** ReadCurrentSMS. */
    method ReadCurrent(max: int, env: Environment, fails: Faults, again: Environment, failsAgain: Faults)
      returns (r: Reply, ghost cut: Cut, ghost sample: Sample, ghost resampled: bool, ghost second: Disk)
      requires Valid()
      modifies this, dir
      ensures Next(old(Now()), Read(max, sample, cut, r), Now())
      ensures Inv(second) && Later(old(dir.d), second) && Later(second, dir.d)
      ensures Still(env) && Still(again) ==> dir.d == old(dir.d)
      ensures max > 0 && old(session).Some? && old(session).value.state != BoundaryLost ==>
                var s := old(session).value;
                && (resampled <==> BoundaryFails(old(dir.d), env, fails, s.start, s.end, max))
                && sample == (if resampled then Sample(second, again, failsAgain) else Sample(old(dir.d), env, fails))
                && Gives(sample, s.start, s.end, max, AttemptOf(r), cut)
                && (r.state == Some(BoundaryLost) <==>
                      Loses(old(dir.d), second, s.start, s.end, max, env, fails, again, failsAgain))
      ensures max > 0 && old(session).Some? && old(session).value.state != BoundaryLost
              && Calm(env) && (forall p :: !fails(p)) ==>
                (Reachable(old(dir.d), old(session).value.start, old(session).value.end) ==> Answered(r))
      ensures max > 0 && old(session).Some? && old(session).value.state != BoundaryLost
              && Calm(again) && (forall p :: !failsAgain(p)) && r.state == Some(BoundaryLost) ==>
                !Reachable(dir.d, old(session).value.start, old(session).value.end)
    {
      cut, sample, resampled, second := Cut(0, 0, 0), Sample(dir.d, env, fails), false, dir.d;
      LaterReflexive(dir.d);
      if max <= 0 { return Reply([], false, None, None, None, Some(BadBudget)), cut, sample, resampled, second; }
      if session.None? { return Reply([], false, None, None, None, None), cut, sample, resampled, second; }
      var s := session.value;
      if s.state == BoundaryLost {
        return Reply([], true, Some(BoundaryLost), Some(s.id), s.ended, None), cut, sample, resampled, second;
      }
      r, cut, sample, resampled, second := ReadSession(s, max, env, fails, again, failsAgain);
    }

    /** The part of ReadCurrentSMS that reads the log. */
    method ReadSession(s: Session, max: int, env: Environment, fails: Faults, again: Environment, failsAgain: Faults)
      returns (r: Reply, ghost cut: Cut, ghost sample: Sample, ghost resampled: bool, ghost second: Disk)
      requires Valid() && max > 0 && session == Some(s) && s.state != BoundaryLost
      modifies this, dir
      ensures Next(old(Now()), Read(max, sample, cut, r), Now())
      ensures Inv(second) && Later(old(dir.d), second) && Later(second, dir.d)
      ensures Still(env) && Still(again) ==> dir.d == old(dir.d)
      ensures resampled <==> BoundaryFails(old(dir.d), env, fails, s.start, s.end, max)
      ensures sample == if resampled then Sample(second, again, failsAgain) else Sample(old(dir.d), env, fails)
      ensures Gives(sample, s.start, s.end, max, AttemptOf(r), cut)
      ensures r.state == Some(BoundaryLost) <==>
                Loses(old(dir.d), second, s.start, s.end, max, env, fails, again, failsAgain)
      ensures Calm(env) && (forall p :: !fails(p)) && Reachable(old(dir.d), s.start, s.end) ==> Answered(r)
      ensures Calm(again) && (forall p :: !failsAgain(p)) && r.state == Some(BoundaryLost) ==>
                !Reachable(dir.d, s.start, s.end)
    {
      ghost var before := Now();
      LaterReflexive(before.d);
      var attempt;
      attempt, cut, sample, resampled, second := ReadSpan(dir, s.start, s.end, max, env, fails, again, failsAgain);
      CalmCases(before.d, second, dir.d, s.start, s.end, max, env, fails, again, failsAgain);
      var next;
      next, r := Settle(s, attempt);
      session := Some(next);
      SettleNext(before, dir.d, s, max, sample, cut, attempt, next, r);
    }
  }

  /** The reply for the outcome of the reader, and the session afterwards. */
  method Settle(s: Session, attempt: Attempt) returns (next: Session, r: Reply)
    requires s.state != BoundaryLost
    ensures Settled(s, attempt, next, r) && AttemptOf(r) == attempt
  {
    next := s;
    if attempt == Failed(Boundary) {
      next := s.(state := BoundaryLost);
      return next, Reply([], true, Some(BoundaryLost), Some(s.id), s.ended, None);
    }
    match attempt
    case Ok(data, truncated) => r := Reply(data, truncated, Some(s.state), Some(s.id), s.ended, None);
    case Failed(_) => r := Reply([], false, Some(s.state), Some(s.id), s.ended, Some(ReadFailed));
  }

  predicate Settled(s: Session, attempt: Attempt, next: Session, r: Reply) {
    match attempt
    case Ok(data, truncated) => next == s && r == Reply(data, truncated, Some(s.state), Some(s.id), s.ended, None)
    case Failed(Boundary) =>
      next == s.(state := BoundaryLost) && r == Reply([], true, Some(BoundaryLost), Some(s.id), s.ended, None)
    case Failed(Io) => next == s && r == Reply([], false, Some(s.state), Some(s.id), s.ended, Some(ReadFailed))
  }

  lemma SettleNext(before: System, d: Disk, s: Session, max: int, sample: Sample, cut: Cut,
                   attempt: Attempt, next: Session, r: Reply)
    requires SystemInv(before) && before.session == Some(s) && s.state != BoundaryLost && max > 0
    requires Inv(d) && Later(before.d, d) && Settled(s, attempt, next, r)
    requires attempt.Ok? ==> Accepted(d, s.start, s.end, max, cut, attempt.data, attempt.truncated)
    requires Gives(sample, s.start, s.end, max, attempt, cut) && Later(before.d, sample.begun)
    requires attempt.Ok? ==> SampleSaw(before.d, d, sample, s.start, s.end, cut)
    ensures Next(before, Read(max, sample, cut, r), System(d, Some(next)))
  {
    SessionStable(before.d, d, s);
  }
}
