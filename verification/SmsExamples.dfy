/**
 * Two schedules of the reader that answer without an error although something
 * is missed (internal/gsm/sms_session.go), and a run in which an answer shrinks.
 */
module SmsExamples {
  import opened Common
  import opened LineWindow
  import opened LogFiles
  import opened SmsCursor
  import opened SmsOutcome
  import opened SmsWindow
  import SmsSpan
  import SmsSession
  import SmsRuns

  // ---- A log of two records, the first one already rotated away ------------------------

  /** A rotation, and one more record. */
  function Rotation(c: seq<byte>): seq<Step> { [RemoveBackup, RenameToBackup, Create, Append(c)] }

  /** The first half of a rotation: between os.Rename and the creation of the new file. */
  function HalfRotation(): seq<Step> { [RemoveBackup, RenameToBackup] }

  function Before(a: seq<byte>, b: seq<byte>): (d: Disk)
    ensures Inv(d)
  {
    Disk([a, b], Some(1), Some(0))
  }

  function Rotated(a: seq<byte>, b: seq<byte>, c: seq<byte>): (d: Disk)
    ensures Inv(d)
  {
    Disk([a, b, c], Some(2), Some(1))
  }

  function HalfRotated(a: seq<byte>, b: seq<byte>): (d: Disk)
    ensures Inv(d)
  {
    Disk([a, b], None, Some(1))
  }

  const START: Cursor := Cursor(0, 0, [])

  /** Others act just before the second open. */
  function At(steps: seq<Step>): Environment { (p: IoPoint) => if p == Open(1) then steps else [] }

  const NO_FAULTS: Faults := p => false

  lemma RunCons(d: Disk, s: Step, rest: seq<Step>)
    requires Inv(d)
    ensures Run(d, [s] + rest) == Run(Apply(d, s), rest)
  {
    assert ([s] + rest)[1..] == rest;
  }

  lemma HalfRotationRuns(a: seq<byte>, b: seq<byte>)
    ensures Run(Before(a, b), HalfRotation()) == HalfRotated(a, b)
  {
    RunCons(Before(a, b), RemoveBackup, [RenameToBackup]);
    RunCons(Apply(Before(a, b), RemoveBackup), RenameToBackup, []);
  }

  lemma RotationRuns(a: seq<byte>, b: seq<byte>, c: seq<byte>)
    ensures Run(Before(a, b), Rotation(c)) == Rotated(a, b, c)
  {
    HalfRotationRuns(a, b);
    var created := Apply(HalfRotated(a, b), Create);
    RunConcat(Before(a, b), HalfRotation(), [Create, Append(c)]);
    RunCons(HalfRotated(a, b), Create, [Append(c)]);
    RunCons(created, Append(c), []);
    assert [] + c == c;
    assert Apply(created, Append(c)).files == [a, b, c];
  }

  lemma OpensAt(d: Disk, steps: seq<Step>, e: Disk)
    requires Inv(d) && Inv(e) && Run(d, steps) == e
    ensures AfterOpens(d, At(steps)) == e && OpenIds(d, At(steps)) == (d.backup, e.current)
  {
    assert At(steps)(Open(0)) == [] && At(steps)(Stat(0)) == [] && At(steps)(Stat(1)) == [] && At(steps)(Open(1)) == steps;
  }

  lemma StraddlingOpens(a: seq<byte>, b: seq<byte>, c: seq<byte>)
    ensures AfterOpens(Before(a, b), At(Rotation(c))) == Rotated(a, b, c)
    ensures OpenIds(Before(a, b), At(Rotation(c))) == (Some(0), Some(2))
  {
    RotationRuns(a, b, c);
    OpensAt(Before(a, b), Rotation(c), Rotated(a, b, c));
  }

  lemma HalfRotatedOpens(a: seq<byte>, b: seq<byte>)
    ensures AfterOpens(Before(a, b), At(HalfRotation())) == HalfRotated(a, b)
    ensures OpenIds(Before(a, b), At(HalfRotation())) == (Some(0), None)
  {
    HalfRotationRuns(a, b);
    OpensAt(Before(a, b), HalfRotation(), HalfRotated(a, b));
  }

  lemma FirstBases(d: Disk, a: seq<byte>, b: seq<byte>)
    requires Inv(d) && 2 <= |d.files| && d.files[0] == a && d.files[1] == b
    ensures Base(d, 0) == 0 && Base(d, 1) == |a| && Base(d, 2) == |a| + |b| <= |Stream(d)|
    ensures Stream(d)[0..|a|] == a && Stream(d)[|a|..|a| + |b|] == b
  {
    assert d.files[..0] == [];
    FileInStream(d, 0);
    FileInStream(d, 1);
  }

  // ---- What the reader answers --------------------------------------------------------------

  lemma RotatedCut(a: seq<byte>, b: seq<byte>, c: seq<byte>)
    ensures
      var e, ids, cut := Rotated(a, b, c), (Some(0), Some(2)), Cut(|a|, |a| + |b|, |a| + |b| + |c|);
      && InFiles(e, ids, START, None) && CutFrom(e, ids, START, None) == cut
      && cut.end <= |Stream(e)| && Pos(e, START) == 0 && SeenSpan(e, START, cut) == a + c
  {
    FirstBases(Rotated(a, b, c), a, b);
    FileInStream(Rotated(a, b, c), 2);
  }

  lemma HalfRotatedCut(a: seq<byte>, b: seq<byte>)
    ensures
      var e, ids, cut := HalfRotated(a, b), (Some(0), None), Cut(|a|, |a|, |a|);
      && InFiles(e, ids, START, None) && CutFrom(e, ids, START, None) == cut
      && cut.end <= |Stream(e)| && Pos(e, START) == 0 && SeenSpan(e, START, cut) == a
  {
    FirstBases(HalfRotated(a, b), a, b);
    assert a + [] == a;
  }

  lemma BeforeCut(a: seq<byte>, b: seq<byte>)
    ensures
      var d, ids, cut := Before(a, b), (Some(0), Some(1)), Cut(|a|, |a|, |a| + |b|);
      && InFiles(d, ids, START, None) && CutFrom(d, ids, START, None) == cut
      && cut.end <= |Stream(d)| && Pos(d, START) == 0 && SeenSpan(d, START, cut) == a + b
  {
    FirstBases(Before(a, b), a, b);
  }

  lemma KeptWhole(whole: seq<byte>, max: nat)
    requires 0 < |whole| <= max && whole[|whole| - 1] == NL
    ensures Window(whole, true, max) == whole
  {
    assert whole[0..] == whole && whole[..|whole|] == whole;
  }

  /** A piece within the budget that ends with a newline is returned whole. */
  lemma AnswerIs(d: Disk, cut: Cut, whole: seq<byte>, max: nat, data: seq<byte>, truncated: bool)
    requires 0 < |d.files| && Pos(d, START) <= cut.gap <= cut.resume <= cut.end <= |Stream(d)|
    requires SeenSpan(d, START, cut) == whole && 0 < |whole| <= max && whole[|whole| - 1] == NL
    ensures Accepted(d, START, None, max, cut, data, truncated) <==> data == whole && !truncated
  {
    KeptWhole(whole, max);
  }

  lemma OutcomeIs(d: Disk, env: Environment, e: Disk, ids: Ids, whole: seq<byte>, max: nat, r: Attempt, cut: Cut)
    requires Inv(d) && 0 < |d.files| && Outcome(d, env, NO_FAULTS, START, None, max, r, cut)
    requires AfterOpens(d, env) == e && OpenIds(d, env) == ids && HasId(ids, 0) && InFiles(e, ids, START, None)
    requires var c := CutFrom(e, ids, START, None);
             Pos(e, START) <= c.gap <= c.resume <= c.end <= |Stream(e)| && SeenSpan(e, START, c) == whole
    requires 0 < |whole| <= max && whole[|whole| - 1] == NL
    ensures r == Ok(whole, false)
  {
    FaultFreeAnswers(d, env, NO_FAULTS, START, None, max, r, cut);
    AnswerIs(e, CutFrom(e, ids, START, None), whole, max, r.data, r.truncated);
  }

  lemma EndsAlike(a: seq<byte>, c: seq<byte>)
    requires c != []
    ensures a + c != [] && (a + c)[|a + c| - 1] == c[|c| - 1]
  {
  }

  /** Whatever the records, after a rotation between the opens the one in the middle is missing. */
  lemma StraddlingOutcome(a: seq<byte>, b: seq<byte>, c: seq<byte>, max: nat, r: Attempt, cut: Cut)
    requires |a| + |c| <= max && c != [] && c[|c| - 1] == NL
    requires Outcome(Before(a, b), At(Rotation(c)), NO_FAULTS, START, None, max, r, cut)
    ensures r == Ok(a + c, false)
  {
    StraddlingOpens(a, b, c);
    RotatedCut(a, b, c);
    EndsAlike(a, c);
    OutcomeIs(Before(a, b), At(Rotation(c)), Rotated(a, b, c), (Some(0), Some(2)), a + c, max, r, cut);
  }

  /** In the middle of a rotation the second open finds nothing, and the newest record is missing. */
  lemma HalfRotatedOutcome(a: seq<byte>, b: seq<byte>, max: nat, r: Attempt, cut: Cut)
    requires |a| <= max && a != [] && a[|a| - 1] == NL
    requires Outcome(Before(a, b), At(HalfRotation()), NO_FAULTS, START, None, max, r, cut)
    ensures r == Ok(a, false)
  {
    HalfRotatedOpens(a, b);
    HalfRotatedCut(a, b);
    OutcomeIs(Before(a, b), At(HalfRotation()), HalfRotated(a, b), (Some(0), None), a, max, r, cut);
  }

  /** What the reader returns under the first schedule: the middle record is skipped, without an error. */
  method StraddlingReadSkipsLine(a: seq<byte>, b: seq<byte>, c: seq<byte>, max: nat) returns (r: Attempt)
    requires |a| + |c| <= max && c != [] && c[|c| - 1] == NL
    ensures r == Ok(a + c, false)
  {
    var dir := new LogDir(Before(a, b));
    ghost var cut;
    r, cut := SmsSpan.ReadSpanOnce(dir, START, None, max, At(Rotation(c)), NO_FAULTS);
    StraddlingOutcome(a, b, c, max, r, cut);
  }

  /** What the reader returns under the second schedule: the newest record is not reached, without an error. */
  method HalfRotatedReadLosesTail(a: seq<byte>, b: seq<byte>, max: nat) returns (r: Attempt)
    requires |a| <= max && a != [] && a[|a| - 1] == NL
    ensures r == Ok(a, false)
  {
    var dir := new LogDir(Before(a, b));
    ghost var cut;
    r, cut := SmsSpan.ReadSpanOnce(dir, START, None, max, At(HalfRotation()), NO_FAULTS);
    HalfRotatedOutcome(a, b, max, r, cut);
  }

  /** Both schedules overtake the reader as soon as the middle record is not empty. */
  lemma BothOvertake(a: seq<byte>, b: seq<byte>, c: seq<byte>)
    requires b != []
    ensures Overtaken(Before(a, b), At(Rotation(c)), START, None)
    ensures Overtaken(Before(a, b), At(HalfRotation()), START, None)
  {
    StraddlingOpens(a, b, c);
    HalfRotatedOpens(a, b);
    assert Rotation(c)[1] == RenameToBackup && HalfRotation()[1] == RenameToBackup;
    assert At(Rotation(c))(Open(1)) == Rotation(c) && At(HalfRotation())(Open(1)) == HalfRotation();
  }

  // ---- An answer that shrinks --------------------------------------------------------------------

  lemma QuietOpens(a: seq<byte>, b: seq<byte>)
    ensures AfterOpens(Before(a, b), At([])) == Before(a, b)
    ensures OpenIds(Before(a, b), At([])) == (Some(0), Some(1))
  {
    OpensAt(Before(a, b), [], Before(a, b));
  }

  /** Nobody acts during the read: both records are returned. */
  lemma CalmOutcome(a: seq<byte>, b: seq<byte>, max: nat, r: Attempt, cut: Cut)
    requires |a| + |b| <= max && b != [] && b[|b| - 1] == NL
    requires Outcome(Before(a, b), At([]), NO_FAULTS, START, None, max, r, cut)
    ensures r == Ok(a + b, false)
  {
    QuietOpens(a, b);
    BeforeCut(a, b);
    EndsAlike(a, b);
    OutcomeIs(Before(a, b), At([]), Before(a, b), (Some(0), Some(1)), a + b, max, r, cut);
  }

  lemma NobodyActs()
    ensures Still(At([]))
  {
  }

  lemma CalmSample(a: seq<byte>, b: seq<byte>, max: nat)
    ensures !BoundaryFails(Before(a, b), At([]), NO_FAULTS, START, None, max)
  {
    QuietOpens(a, b);
    CoveredNeverFails(Before(a, b), At([]), NO_FAULTS, START, None, max);
  }

  lemma StraddledSample(a: seq<byte>, b: seq<byte>, c: seq<byte>, max: nat)
    ensures !BoundaryFails(Before(a, b), At(Rotation(c)), NO_FAULTS, START, None, max)
  {
    StraddlingOpens(a, b, c);
    CoveredNeverFails(Before(a, b), At(Rotation(c)), NO_FAULTS, START, None, max);
  }

  lemma EmptyLogBegins()
    ensures Run(Disk([], None, None), [Create]) == Disk([[]], Some(0), None)
  {
    RunCons(Disk([], None, None), Create, []);
  }

  /** A session that begins with an empty log. */
  method BeginOnEmptyLog() returns (m: SmsSession.SmsManager)
    ensures fresh(m) && fresh(m.dir) && m.Valid() && m.session == Some(LIVE)
    ensures m.dir.d == Disk([[]], Some(0), None)
  {
    var dir := new LogDir(Disk([], None, None));
    m := new SmsSession.SmsManager(dir);
    NobodyActs();
    EmptyLogBegins();
    var ok := m.BeginSession("a", 0, At([]), NO_FAULTS);
    m.CommitSession();
  }

  /** The collector logs two records, of which the second one rotates the log. */
  method LogTwo(dir: LogDir, a: seq<byte>, b: seq<byte>, limit: nat)
    requires dir.d == Disk([[]], Some(0), None)
    requires |a| <= limit && |b| <= limit < |a| + |b|
    modifies dir
    ensures dir.d == Before(a, b)
  {
    var none: AppendPoint -> bool := p => false;
    ghost var steps;
    var ok;
    AfterTwo(a, b, limit);
    ok, steps := dir.AppendLog(a, limit, none, 0);
    ok, steps := dir.AppendLog(b, limit, none, 0);
  }

  lemma AfterTwo(a: seq<byte>, b: seq<byte>, limit: nat)
    requires |a| <= limit && |b| <= limit < |a| + |b|
    ensures AfterAppend(AfterAppend(Disk([[]], Some(0), None), a, limit), b, limit) == Before(a, b)
  {
    assert [] + a == a;
    assert AfterAppend(Disk([[]], Some(0), None), a, limit) == Disk([a], Some(0), None);
  }

  lemma LiveSystem(a: seq<byte>, b: seq<byte>)
    ensures SmsSession.SystemInv(SmsSession.System(Before(a, b), Some(LIVE)))
  {
  }

  method LiveWithTwo(a: seq<byte>, b: seq<byte>, limit: nat) returns (m: SmsSession.SmsManager)
    requires |a| <= limit && |b| <= limit < |a| + |b|
    ensures fresh(m) && fresh(m.dir) && m.Valid() && m.session == Some(LIVE) && m.dir.d == Before(a, b)
  {
    m := BeginOnEmptyLog();
    LogTwo(m.dir, a, b, limit);
    LiveSystem(a, b);
  }

  /**
   * Why `SmsRuns.ReadsGrow` has its condition: of two reads in a row the second,
   * which a rotation overtakes, does not extend what the first one answered.
   */
  method ShrinkingReads(a: seq<byte>, b: seq<byte>, c: seq<byte>, limit: nat, max: nat)
    returns (first: SmsSession.Reply, second: SmsSession.Reply)
    requires |a| <= limit && |b| <= limit < |a| + |b| <= max && |a| + |c| <= max
    requires b != [] && b[|b| - 1] == NL && c != [] && c[|c| - 1] == NL
    ensures SmsSession.Answered(first) && first.data == a + b && !first.truncated
    ensures SmsSession.Answered(second) && second.data == a + c && !second.truncated
    ensures b[0] != c[0] ==> !(first.data <= second.data)
  {
    var m := LiveWithTwo(a, b, limit);
    first := ReadCalmly(m, a, b, max);
    second := ReadOvertaken(m, a, b, c, max);
    if b[0] != c[0] { NotPrefix(a, b, c); }
  }

  lemma NotPrefix(a: seq<byte>, b: seq<byte>, c: seq<byte>)
    requires b != [] && c != [] && b[0] != c[0]
    ensures !(a + b <= a + c)
  {
    assert (a + b)[|a|] == b[0] && (a + c)[|a|] == c[0];
  }

  const LIVE: SmsSession.Session := SmsSession.Session("a", START, None, 0, None, SmsSession.Running)

  method ReadCalmly(m: SmsSession.SmsManager, a: seq<byte>, b: seq<byte>, max: nat) returns (r: SmsSession.Reply)
    requires m.Valid() && m.dir.d == Before(a, b) && m.session == Some(LIVE)
    requires |a| + |b| <= max && b != [] && b[|b| - 1] == NL
    modifies m, m.dir
    ensures m.Valid() && m.dir.d == Before(a, b) && m.session == Some(LIVE)
    ensures SmsSession.Answered(r) && r.data == a + b && !r.truncated
  {
    NobodyActs();
    CalmSample(a, b, max);
    ghost var cut, sample, resampled, second;
    r, cut, sample, resampled, second := m.ReadCurrent(max, At([]), NO_FAULTS, At([]), NO_FAULTS);
    CalmOutcome(a, b, max, SmsSession.AttemptOf(r), cut);
  }

  method ReadOvertaken(m: SmsSession.SmsManager, a: seq<byte>, b: seq<byte>, c: seq<byte>, max: nat)
    returns (r: SmsSession.Reply)
    requires m.Valid() && m.dir.d == Before(a, b) && m.session == Some(LIVE)
    requires |a| + |c| <= max && c != [] && c[|c| - 1] == NL
    modifies m, m.dir
    ensures SmsSession.Answered(r) && r.data == a + c && !r.truncated
  {
    StraddledSample(a, b, c, max);
    ghost var cut, sample, resampled, second;
    r, cut, sample, resampled, second := m.ReadCurrent(max, At(Rotation(c)), NO_FAULTS, At([]), NO_FAULTS);
    StraddlingOutcome(a, b, c, max, SmsSession.AttemptOf(r), cut);
  }

  // ---- A session that begins behind earlier records ----------------------------------------------

  function Logged(a: seq<byte>): (d: Disk)
    ensures Inv(d)
  {
    Disk([a], Some(0), None)
  }

  lemma MarkKept(a: seq<byte>, b: seq<byte>)
    ensures Sound(Logged(a + b), Mark(Logged(a), 0)) && Pos(Logged(a + b), Mark(Logged(a), 0)) == |a|
  {
    SliceOfPrefix(a, a + b, |a| - Min(|a|, ANCHOR_BYTES), |a|);
    assert Logged(a + b).files[..0] == [];
  }

  lemma NextCut(a: seq<byte>, b: seq<byte>)
    ensures
      var d, start, n := Logged(a + b), Mark(Logged(a), 0), |a| + |b|;
      && InFiles(d, (None, Some(0)), start, None) && CutFrom(d, (None, Some(0)), start, None) == Cut(n, n, n)
      && n == |Stream(d)| && start.id < |d.files| && Pos(d, start) <= n && SeenSpan(d, start, Cut(n, n, n)) == b
  {
    MarkKept(a, b);
    FlattenOne(a + b);
    assert (a + b)[|a|..|a| + |b|] + (a + b)[|a| + |b|..|a| + |b|] == b;
  }

  lemma NextOutcome(a: seq<byte>, b: seq<byte>, max: nat, r: Attempt, cut: Cut)
    requires a != [] && a[|a| - 1] == NL && 0 < |b| <= max && b[|b| - 1] == NL
    requires Outcome(Logged(a + b), At([]), NO_FAULTS, Mark(Logged(a), 0), None, max, r, cut)
    ensures r == Ok(b, false)
  {
    var d, start := Logged(a + b), Mark(Logged(a), 0);
    OpensAt(d, [], d);
    MarkKept(a, b);
    NextCut(a, b);
    FaultFreeAnswers(d, At([]), NO_FAULTS, start, None, max, r, cut);
    assert BeginsLine(d, start);
    StartsLineMeans(d, start);
    KeptWhole(b, max);
  }

  lemma NextSample(a: seq<byte>, b: seq<byte>, max: nat)
    ensures !BoundaryFails(Logged(a + b), At([]), NO_FAULTS, Mark(Logged(a), 0), None, max)
  {
    OpensAt(Logged(a + b), [], Logged(a + b));
    MarkKept(a, b);
    CoveredNeverFails(Logged(a + b), At([]), NO_FAULTS, Mark(Logged(a), 0), None, max);
  }

  function Second(a: seq<byte>): SmsSession.Session {
    SmsSession.Session("b", Mark(Logged(a), 0), None, 0, None, SmsSession.Running)
  }

  /** A session that begins when `a` has been logged already, and before `b` is. */
  method BeginBehind(a: seq<byte>, b: seq<byte>, limit: nat) returns (m: SmsSession.SmsManager)
    requires |a| + |b| <= limit
    ensures fresh(m) && fresh(m.dir) && m.Valid() && m.dir.d == Logged(a + b) && m.session == Some(Second(a))
  {
    var dir := new LogDir(Logged(a));
    m := new SmsSession.SmsManager(dir);
    NobodyActs();
    RunCons(Logged(a), Create, []);
    var ok := m.BeginSession("b", 0, At([]), NO_FAULTS);
    m.CommitSession();
    var none: AppendPoint -> bool := p => false;
    ghost var steps;
    ok, steps := dir.AppendLog(b, limit, none, 0);
    assert dir.d.files == [a + b];
    MarkKept(a, b);
  }

  /** It answers what was logged since, from the first byte on, and nothing of what was there before. */
  method SessionBehindRecords(a: seq<byte>, b: seq<byte>, limit: nat, max: nat) returns (r: SmsSession.Reply)
    requires a != [] && a[|a| - 1] == NL && 0 < |b| <= max && b[|b| - 1] == NL && |a| + |b| <= limit
    ensures SmsSession.Answered(r) && r.data == b && !r.truncated
  {
    var m := BeginBehind(a, b, limit);
    NobodyActs();
    NextSample(a, b, max);
    ghost var cut, sample, resampled, second;
    r, cut, sample, resampled, second := m.ReadCurrent(max, At([]), NO_FAULTS, At([]), NO_FAULTS);
    NextOutcome(a, b, max, SmsSession.AttemptOf(r), cut);
  }
}
