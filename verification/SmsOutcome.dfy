/**
 * What one attempt of the reader must answer (readSMSSpanOnce in
 * internal/gsm/sms_session.go), as a function of the log, of what others do
 * between its calls, and of which calls fail; and exactly what an answer misses.
 */
module SmsOutcome {
  import opened Common
  import opened LineWindow
  import opened LogFiles
  import opened SmsCursor

  // ---- The two opens ------------------------------------------------------------

  /** The files that the backup and the active name denoted when they were opened. */
  type Ids = (Option<nat>, Option<nat>)

  ghost function FirstOpen(d: Disk, env: Environment): (e: Disk)
    requires Inv(d)
    ensures Inv(e)
  {
    Run(d, env(Open(0)))
  }

  ghost function BackupSeen(d: Disk, env: Environment): (e: Disk)
    requires Inv(d)
    ensures Inv(e)
  {
    var e := FirstOpen(d, env);
    if e.backup.Some? then Run(e, env(Stat(0))) else e
  }

  ghost function SecondOpen(d: Disk, env: Environment): (e: Disk)
    requires Inv(d)
    ensures Inv(e)
  {
    Run(BackupSeen(d, env), env(Open(1)))
  }

  /** The log when both files are open and measured. */
  ghost function AfterOpens(d: Disk, env: Environment): (e: Disk)
    requires Inv(d)
    ensures Inv(e)
  {
    var e := SecondOpen(d, env);
    if e.current.Some? then Run(e, env(Stat(1))) else e
  }

  ghost function OpenIds(d: Disk, env: Environment): Ids
    requires Inv(d)
  {
    (FirstOpen(d, env).backup, SecondOpen(d, env).current)
  }

  /** A call fails that the opening of the files comes to. */
  ghost predicate OpenFault(d: Disk, env: Environment, fails: Faults)
    requires Inv(d)
  {
    || fails(Open(0)) || (OpenIds(d, env).0.Some? && fails(Stat(0)))
    || fails(Open(1)) || (OpenIds(d, env).1.Some? && fails(Stat(1)))
  }

  lemma RunIsLater(d: Disk, steps: seq<Step>)
    requires Inv(d)
    ensures Later(d, Run(d, steps))
  {
  }

  /** The states of the log during the opens, in order. */
  lemma OpensInOrder(d: Disk, env: Environment)
    requires Inv(d)
    ensures Later(d, FirstOpen(d, env)) && Later(FirstOpen(d, env), BackupSeen(d, env))
    ensures Later(BackupSeen(d, env), SecondOpen(d, env)) && Later(SecondOpen(d, env), AfterOpens(d, env))
    ensures Later(d, SecondOpen(d, env)) && Later(d, AfterOpens(d, env))
    ensures Later(FirstOpen(d, env), SecondOpen(d, env)) && Later(FirstOpen(d, env), AfterOpens(d, env))
    ensures Later(BackupSeen(d, env), AfterOpens(d, env))
  {
    var first, marked, second, seen := FirstOpen(d, env), BackupSeen(d, env), SecondOpen(d, env), AfterOpens(d, env);
    RunIsLater(d, env(Open(0)));
    RunIsLater(first, env(Stat(0)));
    LaterReflexive(first);
    RunIsLater(marked, env(Open(1)));
    RunIsLater(second, env(Stat(1)));
    LaterReflexive(second);
    LaterTransitive(first, marked, second);
    LaterTransitive(d, first, second);
    LaterTransitive(d, second, seen);
    LaterTransitive(first, second, seen);
    LaterTransitive(marked, second, seen);
  }

  /** The open files exist, the second is newer than the first, and the first is no longer written. */
  lemma OpenIdsMeaning(d: Disk, env: Environment)
    requires Inv(d)
    ensures
      var ids, seen := OpenIds(d, env), AfterOpens(d, env);
      && (ids.0.Some? ==> ids.0.value < |seen.files| && Frozen(FirstOpen(d, env), ids.0.value))
      && (ids.1.Some? ==> ids.1.value < |seen.files|)
      && (ids.0.Some? && ids.1.Some? ==> ids.0.value < ids.1.value)
  {
    OpensInOrder(d, env);
    var first, second, seen := FirstOpen(d, env), SecondOpen(d, env), AfterOpens(d, env);
    if first.backup.Some? {
      LaterFile(first, second, first.backup.value);
      LaterFile(first, seen, first.backup.value);
    }
    if second.current.Some? { LaterFile(second, seen, second.current.value); }
  }

  // ---- Finding the window among the open files --------------------------------------

  predicate HasId(ids: Ids, id: nat) { ids.0 == Some(id) || ids.1 == Some(id) }

  /** The place of a file in the list of open files. */
  function IndexIn(ids: Ids, id: nat): nat
    requires HasId(ids, id)
  {
    if ids.0 == Some(id) then 0 else if ids.0.Some? then 1 else 0
  }

  /** The open files hold the beginning and the end of the window, in this order. */
  predicate Covering(ids: Ids, start: Cursor, end: Option<Cursor>) {
    && HasId(ids, start.id)
    && (end.Some? ==> HasId(ids, end.value.id) && start.id <= end.value.id)
    && (end.Some? && end.value.id == start.id ==> start.offset <= end.value.offset)
  }

  /** ... and the calls that look for them succeed. */
  predicate Located(ids: Ids, start: Cursor, end: Option<Cursor>, fails: Faults) {
    && Covering(ids, start, end)
    && !fails(SeekStart(IndexIn(ids, start.id)))
    && (end.Some? ==> !fails(SeekEnd(IndexIn(ids, end.value.id))))
  }

  /** The file in which the window ends; a running session goes up to the newest open file. */
  function LastId(ids: Ids, start: Cursor, end: Option<Cursor>): nat {
    if end.Some? then end.value.id else if ids.1.Some? then ids.1.value else start.id
  }

  predicate InFiles(seen: Disk, ids: Ids, start: Cursor, end: Option<Cursor>) {
    && start.id < |seen.files| && start.offset <= |seen.files[start.id]|
    && start.id <= LastId(ids, start, end) < |seen.files|
    && (end.Some? ==> end.value.offset <= |seen.files[end.value.id]|)
    && (end.Some? && end.value.id == start.id ==> start.offset <= end.value.offset)
  }

  function StopOffset(seen: Disk, ids: Ids, start: Cursor, end: Option<Cursor>): nat
    requires InFiles(seen, ids, start, end)
  {
    if end.Some? then end.value.offset else |seen.files[LastId(ids, start, end)]|
  }

  /** How many bytes of each chosen file belong to the window. */
  function SizesOf(seen: Disk, ids: Ids, start: Cursor, end: Option<Cursor>): (sizes: seq<nat>)
    requires InFiles(seen, ids, start, end)
    ensures 1 <= |sizes| <= 2
  {
    if LastId(ids, start, end) == start.id then [StopOffset(seen, ids, start, end) - start.offset]
    else [|seen.files[start.id]| - start.offset, StopOffset(seen, ids, start, end)]
  }

  // ---- Faults while copying ------------------------------------------------------------

  function Sum(sizes: seq<nat>): nat {
    if sizes == [] then 0 else Sum(sizes[..|sizes| - 1]) + sizes[|sizes| - 1]
  }

  /** A call fails that the copying of segment `i` comes to when `cut` bytes are skipped in all. */
  predicate SegmentFault(sizes: seq<nat>, cut: nat, i: nat, fails: Faults)
    requires i < |sizes|
  {
    var before, after := Sum(sizes[..i]), Sum(sizes[..i + 1]);
    && before < after && cut < after
    && (fails(Copy(i)) || (0 < cut && before <= cut && fails(Previous(i))))
  }

  predicate CopyFault(sizes: seq<nat>, cut: nat, fails: Faults) {
    exists i :: 0 <= i < |sizes| && SegmentFault(sizes, cut, i, fails)
  }

  predicate RecheckFault(n: nat, ended: bool, fails: Faults) {
    || (exists i :: 0 <= i < n && fails(Recheck(i)))
    || fails(RecheckStart) || (ended && fails(RecheckEnd))
  }

  /** The window is found and read without an error. */
  ghost predicate Answerable(d: Disk, env: Environment, fails: Faults, start: Cursor, end: Option<Cursor>, max: nat)
    requires Inv(d)
  {
    var ids, seen := OpenIds(d, env), AfterOpens(d, env);
    && Located(ids, start, end, fails) && InFiles(seen, ids, start, end)
    && var sizes := SizesOf(seen, ids, start, end);
       !CopyFault(sizes, CutOf(Sum(sizes), max), fails) && !RecheckFault(|sizes|, end.Some?, fails)
  }

  /** The attempt ends with the boundary error. */
  ghost predicate BoundaryFails(d: Disk, env: Environment, fails: Faults, start: Cursor, end: Option<Cursor>, max: nat)
    requires Inv(d)
  {
    !OpenFault(d, env, fails) && !Answerable(d, env, fails, start, end, max)
  }

  // ---- What is read ----------------------------------------------------------------------

  /** The part of the stream that was read: up to `gap`, then from `resume` up to `end`. */
  datatype Cut = Cut(gap: nat, resume: nat, end: nat)

  ghost function SeenSpan(d: Disk, start: Cursor, cut: Cut): seq<byte>
    requires start.id < |d.files| && Pos(d, start) <= cut.gap <= cut.resume <= cut.end <= |Stream(d)|
  {
    Stream(d)[Pos(d, start)..cut.gap] + Stream(d)[cut.resume..cut.end]
  }

  /** The files between the first and the last one are skipped, and nothing else. */
  ghost function CutFrom(seen: Disk, ids: Ids, start: Cursor, end: Option<Cursor>): Cut
    requires InFiles(seen, ids, start, end)
  {
    var last := LastId(ids, start, end);
    var stop := Base(seen, last) + StopOffset(seen, ids, start, end);
    if last == start.id then Cut(stop, stop, stop) else Cut(Base(seen, start.id + 1), Base(seen, last), stop)
  }

  /** `data` is an admissible answer for the session `start` to `end` with this budget. */
  ghost predicate Accepted(d: Disk, start: Cursor, end: Option<Cursor>, max: nat, cut: Cut, data: seq<byte>, truncated: bool) {
    && start.id < |d.files|
    && Pos(d, start) <= cut.gap <= cut.resume <= cut.end <= |Stream(d)|
    && (end.Some? ==> end.value.id < |d.files| && cut.end == Pos(d, end.value))
    && data == Window(SeenSpan(d, start, cut), StartsLine(start), max)
    && truncated == (|SeenSpan(d, start, cut)| > max)
  }

  /** An answer stays an admissible answer while the log grows. */
  lemma AcceptedStable(d: Disk, e: Disk, start: Cursor, end: Option<Cursor>, max: nat, cut: Cut, data: seq<byte>, truncated: bool)
    requires Inv(d) && Later(d, e) && Sound(d, start) && (end.Some? ==> Sound(d, end.value))
    requires Accepted(d, start, end, max, cut, data, truncated)
    ensures Accepted(e, start, end, max, cut, data, truncated)
  {
    SoundStable(d, e, start);
    if end.Some? { SoundStable(d, e, end.value); }
    StreamGrows(d, e);
    SliceOfPrefix(Stream(d), Stream(e), Pos(d, start), cut.gap);
    SliceOfPrefix(Stream(d), Stream(e), cut.resume, cut.end);
  }

  /** The one possible result of an attempt that begins in `d`. */
  ghost predicate Outcome(d: Disk, env: Environment, fails: Faults, start: Cursor, end: Option<Cursor>, max: nat,
                          r: Attempt, cut: Cut)
    requires Inv(d)
  {
    match r
    case Failed(Io) => OpenFault(d, env, fails)
    case Failed(Boundary) => BoundaryFails(d, env, fails, start, end, max)
    case Ok(data, truncated) =>
      && !OpenFault(d, env, fails) && Answerable(d, env, fails, start, end, max)
      && cut == CutFrom(AfterOpens(d, env), OpenIds(d, env), start, end)
      && Accepted(AfterOpens(d, env), start, end, max, cut, data, truncated)
  }

  /** An attempt: the log when it begins, what others do, and what fails. */
  datatype Sample = Sample(begun: Disk, env: Environment, fails: Faults)

  ghost predicate Gives(s: Sample, start: Cursor, end: Option<Cursor>, max: nat, r: Attempt, cut: Cut) {
    Inv(s.begun) && Outcome(s.begun, s.env, s.fails, start, end, max, r, cut)
  }

  /** Log, schedule and faults determine the result. */
  lemma OutcomeUnique(d: Disk, env: Environment, fails: Faults, start: Cursor, end: Option<Cursor>, max: nat,
                      r: Attempt, cut: Cut, r': Attempt, cut': Cut)
    requires Inv(d)
    requires Outcome(d, env, fails, start, end, max, r, cut) && Outcome(d, env, fails, start, end, max, r', cut')
    ensures r == r' && (r.Ok? ==> cut == cut')
  {
  }

  /** Sound cursors that are covered lie in the open files. */
  lemma CoveredInFiles(d: Disk, env: Environment, start: Cursor, end: Option<Cursor>)
    requires Inv(d) && Sound(d, start) && (end.Some? ==> Sound(d, end.value))
    requires Covering(OpenIds(d, env), start, end)
    ensures InFiles(AfterOpens(d, env), OpenIds(d, env), start, end)
  {
    OpensInOrder(d, env);
    OpenIdsMeaning(d, env);
    SoundStable(d, AfterOpens(d, env), start);
    if end.Some? { SoundStable(d, AfterOpens(d, env), end.value); }
  }

  /** Without faults an attempt answers exactly if the files it opens hold the window. */
  lemma FaultFreeAnswers(d: Disk, env: Environment, fails: Faults, start: Cursor, end: Option<Cursor>, max: nat,
                         r: Attempt, cut: Cut)
    requires Inv(d) && Sound(d, start) && (end.Some? ==> Sound(d, end.value))
    requires (forall p :: !fails(p)) && Outcome(d, env, fails, start, end, max, r, cut)
    ensures r.Ok? <==> Covering(OpenIds(d, env), start, end)
    ensures !r.Ok? ==> r == Failed(Boundary)
  {
    if Covering(OpenIds(d, env), start, end) { CoveredInFiles(d, env, start, end); }
  }

  lemma CoveredNeverFails(d: Disk, env: Environment, fails: Faults, start: Cursor, end: Option<Cursor>, max: nat)
    requires Inv(d) && Sound(d, start) && (end.Some? ==> Sound(d, end.value))
    requires (forall p :: !fails(p)) && Covering(OpenIds(d, env), start, end)
    ensures !BoundaryFails(d, env, fails, start, end, max)
  {
    CoveredInFiles(d, env, start, end);
  }

  /** On a calm log the files opened are exactly those that had a name. */
  lemma CalmOpens(d: Disk, env: Environment, id: nat)
    requires Inv(d) && Calm(env) && id < |d.files|
    ensures HasId(OpenIds(d, env), id) <==> Linked(d, id)
  {
    RunWithoutRename(d, env(Open(0)));
    RunWithoutRename(FirstOpen(d, env), env(Stat(0)));
    RunWithoutRename(BackupSeen(d, env), env(Open(1)));
  }

  lemma CalmCovers(d: Disk, env: Environment, start: Cursor, end: Option<Cursor>)
    requires Inv(d) && Calm(env) && Sound(d, start) && (end.Some? ==> Sound(d, end.value))
    ensures Covering(OpenIds(d, env), start, end) <==> Reachable(d, start, end)
  {
    CalmOpens(d, env, start.id);
    if end.Some? { CalmOpens(d, env, end.value.id); }
  }
}
