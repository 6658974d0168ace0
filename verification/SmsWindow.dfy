/**
 * What an answer of the session-scoped reader is worth: scope safety for every
 * interleaving, exactness for a contiguous read, and exactly when bytes are missed.
 */
module SmsWindow {
  import opened Common
  import opened LineWindow
  import opened LogFiles
  import opened SmsCursor
  import opened SmsOutcome

  /**
   * Scope safety, for every interleaving: each returned byte was logged at or
   * after the start of the session and before its end, and the order is kept.
   */
  lemma ScopeSafe(d: Disk, start: Cursor, end: Option<Cursor>, max: nat, cut: Cut, data: seq<byte>, truncated: bool)
    returns (at: seq<nat>)
    requires Accepted(d, start, end, max, cut, data, truncated)
    ensures |at| == |data| <= max
    ensures forall k :: 0 <= k < |data| ==> Pos(d, start) <= at[k] < |Stream(d)| && Stream(d)[at[k]] == data[k]
    ensures end.Some? ==> forall k :: 0 <= k < |data| ==> at[k] < Pos(d, end.value)
    ensures forall i, j :: 0 <= i < j < |data| ==> at[i] < at[j]
  {
    var p, q := WindowSlice(SeenSpan(d, start, cut), StartsLine(start), max);
    at := Places(Stream(d), Pos(d, start), cut, p, q);
  }

  lemma Places(s: seq<byte>, a: nat, cut: Cut, p: nat, q: nat) returns (at: seq<nat>)
    requires a <= cut.gap <= cut.resume <= cut.end <= |s|
    requires p <= q <= |s[a..cut.gap] + s[cut.resume..cut.end]|
    ensures |at| == q - p
    ensures forall k :: 0 <= k < |at| ==> a <= at[k] < cut.end && s[at[k]] == (s[a..cut.gap] + s[cut.resume..cut.end])[p..q][k]
    ensures forall i, j :: 0 <= i < j < |at| ==> at[i] < at[j]
  {
    at := PlaceSeq(a, cut, p, q);
    var seen := s[a..cut.gap] + s[cut.resume..cut.end];
    forall k | 0 <= k < |at| ensures a <= at[k] < cut.end && s[at[k]] == seen[p..q][k] {
      PlaceAt(s, a, cut, p + k);
      assert seen[p..q][k] == seen[p + k];
    }
  }

  lemma PlaceAt(s: seq<byte>, a: nat, cut: Cut, k: nat)
    requires a <= cut.gap <= cut.resume <= cut.end <= |s| && k < |s[a..cut.gap] + s[cut.resume..cut.end]|
    ensures a <= Place(a, cut, k) < cut.end && s[Place(a, cut, k)] == (s[a..cut.gap] + s[cut.resume..cut.end])[k]
  {
  }

  function PlaceSeq(a: nat, cut: Cut, p: nat, q: nat): (r: seq<nat>)
    requires p <= q
    ensures |r| == q - p && forall k :: 0 <= k < |r| ==> r[k] == Place(a, cut, p + k)
    decreases q - p
  {
    if p == q then [] else PlaceSeq(a, cut, p, q - 1) + [Place(a, cut, q - 1)]
  }

  /** Where byte `k` of what was seen lies in the stream. */
  function Place(a: nat, cut: Cut, k: nat): nat {
    if a + k < cut.gap then a + k else a + k - cut.gap + cut.resume
  }

  /** `s[x..y]` is a complete line of what begins at `a`, where a line begins if `begins`. */
  ghost predicate LineFrom(s: seq<byte>, a: nat, begins: bool, x: nat, y: nat) {
    && a <= x < y <= |s|
    && (if x == a then begins else s[x - 1] == NL)
    && s[y - 1] == NL && forall k :: x <= k < y - 1 ==> s[k] != NL
  }

  /** Position `i` belongs to a complete line among the last `max` bytes of `s[a..e]`. */
  ghost predicate InWindowLine(s: seq<byte>, a: nat, e: nat, begins: bool, max: nat, i: nat)
    requires a <= e <= |s|
  {
    exists x: nat, y: nat :: e - max <= x <= i < y <= e && LineFrom(s, a, begins, x, y)
  }

  predicate BeginsIn(d: Disk, c: Cursor) { c.id < |d.files| && c.offset <= |d.files[c.id]| }

  /** `s[p..q]` holds exactly the positions of those lines. */
  ghost predicate ShowsLines(s: seq<byte>, a: nat, e: nat, startsLine: bool, max: nat, p: nat, q: nat)
    requires a <= e <= |s|
  {
    forall i: nat :: i < e ==> (p <= i < q <==> InWindowLine(s, a, e, startsLine, max, i))
  }

  /**
   * Exactness: unless an attempt was overtaken or skipped something, it answers
   * precisely the bytes of the complete lines among the last `max` bytes of the
   * session, which goes on at least to what had been logged when it began; and
   * `truncated` says whether the session is longer than that.
   */
  lemma ExactWindow(d: Disk, env: Environment, fails: Faults, start: Cursor, end: Option<Cursor>, max: nat,
                    cut: Cut, data: seq<byte>, truncated: bool)
    returns (p: nat, q: nat)
    requires Inv(d) && Sound(d, start) && (end.Some? ==> Sound(d, end.value))
    requires Outcome(d, env, fails, start, end, max, Ok(data, truncated), cut)
    requires cut.gap == cut.resume && !Overtaken(d, env, start, end)
    ensures var seen := AfterOpens(d, env);
            && start.id < |seen.files| && Pos(seen, start) <= p <= q <= cut.end <= |Stream(seen)|
            && data == Stream(seen)[p..q] && |data| <= max
            && (truncated <==> cut.end - Pos(seen, start) > max)
            && BeginsIn(seen, start)
            && ShowsLines(Stream(seen), Pos(seen, start), cut.end, BeginsLine(seen, start), max, p, q)
    ensures if end.Some? then cut.end == Pos(d, end.value) else |Stream(d)| <= cut.end
  {
    var seen := AfterOpens(d, env);
    Contiguous(Stream(seen), Pos(seen, start), cut.gap, cut.end);
    p, q := WindowInStream(Stream(seen), Pos(seen, start), cut.end, StartsLine(start), max);
    OpensInOrder(d, env);
    SoundStable(d, seen, start);
    StartsLineMeans(seen, start);
    if end.Some? {
      SoundStable(d, seen, end.value);
    } else if OpenIds(d, env).1 == Some(start.id) {
      ActiveIsWhole(d, env, start);
    } else {
      BackupSeesAll(d, env, start);
    }
  }

  /** The same, from what can be known beforehand: a stopped session, or no rename between the two opens. */
  lemma QuietExactWindow(d: Disk, env: Environment, fails: Faults, start: Cursor, end: Option<Cursor>, max: nat,
                         cut: Cut, data: seq<byte>, truncated: bool)
    returns (p: nat, q: nat)
    requires Inv(d) && Sound(d, start) && (end.Some? ==> Sound(d, end.value))
    requires Outcome(d, env, fails, start, end, max, Ok(data, truncated), cut)
    requires Quiet(env) || end.Some?
    ensures var seen := AfterOpens(d, env);
            && start.id < |seen.files| && Pos(seen, start) <= p <= q <= cut.end <= |Stream(seen)|
            && data == Stream(seen)[p..q] && |data| <= max
            && (truncated <==> cut.end - Pos(seen, start) > max)
            && BeginsIn(seen, start)
            && ShowsLines(Stream(seen), Pos(seen, start), cut.end, BeginsLine(seen, start), max, p, q)
    ensures if end.Some? then cut.end == Pos(d, end.value) else |Stream(d)| <= cut.end
  {
    QuietIsWhole(d, env, start, end);
    p, q := ExactWindow(d, env, fails, start, end, max, cut, data, truncated);
  }

  lemma WindowInStream(s: seq<byte>, a: nat, e: nat, startsLine: bool, max: nat) returns (p: nat, q: nat)
    requires a <= e <= |s|
    ensures a <= p <= q <= e && Window(s[a..e], startsLine, max) == s[p..q] && q - p <= max
    ensures ShowsLines(s, a, e, startsLine, max, p, q)
  {
    p, q := SessionWindow(s[a..e], startsLine, max);
    ShiftWindow(s, a, e, startsLine, max, p, q);
    p, q := a + p, a + q;
  }

  /** The window of a session is this piece of it. */
  ghost predicate IsWindowAt(session: seq<byte>, startsLine: bool, max: nat, p: nat, q: nat) {
    && p <= q <= |session| && q - p <= max && Window(session, startsLine, max) == session[p..q]
    && MadeOfLines(session, startsLine, CutOf(|session|, max), p, q)
  }

  lemma SessionWindow(session: seq<byte>, startsLine: bool, max: nat) returns (p: nat, q: nat)
    ensures IsWindowAt(session, startsLine, max, p, q)
  {
    p, q := WindowMeaning(session, startsLine, max);
    assert |session[p..q]| == q - p;
  }

  lemma ShiftWindow(s: seq<byte>, a: nat, e: nat, startsLine: bool, max: nat, p: nat, q: nat)
    requires a <= e <= |s| && IsWindowAt(s[a..e], startsLine, max, p, q)
    ensures a + q <= e && Window(s[a..e], startsLine, max) == s[a + p..a + q]
    ensures ShowsLines(s, a, e, startsLine, max, a + p, a + q)
  {
    SliceOfSlice(s, a, e, p, q);
    ShiftLines(s, a, e, startsLine, max, p, q);
  }

  lemma ShiftLines(s: seq<byte>, a: nat, e: nat, startsLine: bool, max: nat, p: nat, q: nat)
    requires a <= e <= |s| && MadeOfLines(s[a..e], startsLine, CutOf(e - a, max), p, q)
    ensures ShowsLines(s, a, e, startsLine, max, a + p, a + q)
  {
    forall i: nat | i < e ensures a + p <= i < a + q <==> InWindowLine(s, a, e, startsLine, max, i) {
      AtPosition(s, a, e, startsLine, max, p, q, i);
    }
  }

  lemma AtPosition(s: seq<byte>, a: nat, e: nat, startsLine: bool, max: nat, p: nat, q: nat, i: nat)
    requires a <= e <= |s| && i < e && MadeOfLines(s[a..e], startsLine, CutOf(e - a, max), p, q)
    ensures a + p <= i < a + q <==> InWindowLine(s, a, e, startsLine, max, i)
  {
    if a <= i {
      AtByte(s[a..e], startsLine, CutOf(e - a, max), p, q, i - a);
      LineInSlice(s, a, e, startsLine, max, i);
    }
  }

  /** A line of the session is a line of the stream, among the last `max` bytes exactly if it begins after the cut. */
  lemma LineInSlice(s: seq<byte>, a: nat, e: nat, begins: bool, max: nat, i: nat)
    requires a <= e <= |s| && a <= i < e
    ensures InLine(s[a..e], begins, CutOf(e - a, max), i - a) <==> InWindowLine(s, a, e, begins, max, i)
  {
    var session := s[a..e];
    if InLine(session, begins, CutOf(e - a, max), i - a) {
      var x, y :| CutOf(e - a, max) <= x <= i - a < y && IsLine(session, begins, x, y);
      SameLine(s, a, e, begins, x, y);
      assert LineFrom(s, a, begins, a + x, a + y);
    }
    if InWindowLine(s, a, e, begins, max, i) {
      var x: nat, y: nat :| e - max <= x <= i < y <= e && LineFrom(s, a, begins, x, y);
      SameLine(s, a, e, begins, x - a, y - a);
      assert IsLine(session, begins, x - a, y - a);
    }
  }

  lemma SameLine(s: seq<byte>, a: nat, e: nat, begins: bool, x: int, y: int)
    requires a <= e <= |s| && 0 <= x < y <= e - a
    ensures IsLine(s[a..e], begins, x, y) <==> LineFrom(s, a, begins, a + x, a + y)
  {
    var session := s[a..e];
    assert forall k :: 0 <= k < e - a ==> session[k] == s[a + k];
    if IsLine(session, begins, x, y) {
      forall k | a + x <= k < a + y - 1 ensures s[k] != NL { assert session[k - a] == s[k]; }
    }
    if LineFrom(s, a, begins, a + x, a + y) {
      forall k | x <= k < y - 1 ensures session[k] != NL { assert s[a + k] != NL; }
    }
  }

  lemma AtByte(span: seq<byte>, startsLine: bool, cut: int, p: int, q: int, k: nat)
    requires MadeOfLines(span, startsLine, cut, p, q) && k < |span|
    ensures p <= k < q <==> InLine(span, startsLine, cut, k)
  {
  }

  lemma Contiguous(s: seq<byte>, a: nat, gap: nat, e: nat)
    requires a <= gap <= e <= |s|
    ensures s[a..gap] + s[gap..e] == s[a..e]
  {
  }

  // ---- What an answer misses ---------------------------------------------------------------

  /** Position `i` of the stream is part of what was read. */
  predicate SeenAt(cut: Cut, i: nat) { i < cut.gap || cut.resume <= i < cut.end }

  /** Everything of the session that had been logged when the attempt began in `d` was read. */
  ghost predicate SeesAll(d: Disk, start: Cursor, end: Option<Cursor>, cut: Cut)
    requires start.id < |d.files| && (end.Some? ==> end.value.id < |d.files|)
  {
    forall i: nat :: Pos(d, start) <= i < (if end.Some? then Pos(d, end.value) else |Stream(d)|) ==> SeenAt(cut, i)
  }

  /**
   * A running session began in what was the backup at the first open, its next
   * file already held something, and a rename came before the second open.
   */
  ghost predicate Overtaken(d: Disk, env: Environment, start: Cursor, end: Option<Cursor>)
    requires Inv(d)
  {
    && end.None? && OpenIds(d, env).0 == Some(start.id) && !Quiet(env)
    && start.id + 1 < |d.files| && d.files[start.id + 1] != []
  }

  /** When the first open found the backup, at most one newer file existed, and it was the active one. */
  lemma BackupAtOpen(d: Disk, env: Environment, id: nat)
    requires Inv(d) && OpenIds(d, env).0 == Some(id)
    ensures |d.files| <= id + 2
    ensures id + 1 < |d.files| ==> FirstOpen(d, env).current == Some(id + 1)
  {
    RunIsLater(d, env(Open(0)));
    LaterGrown(d, FirstOpen(d, env));
  }

  /** The second open finds the active file of the first one exactly if nothing is renamed in between. */
  lemma SecondName(d: Disk, env: Environment, id: nat)
    requires Inv(d) && OpenIds(d, env).0.Some? && FirstOpen(d, env).current == Some(id)
    ensures OpenIds(d, env).1 == Some(id) <==> Quiet(env)
  {
    var first := FirstOpen(d, env);
    RunConcat(first, env(Stat(0)), env(Open(1)));
    if Quiet(env) {
      RunWithoutRename(first, env(Stat(0)) + env(Open(1)));
    } else {
      RunWithRename(first, env(Stat(0)) + env(Open(1)), id);
    }
  }

  /** Without a rename the two open files are neighbours. */
  lemma QuietNeighbours(d: Disk, env: Environment)
    requires Inv(d) && Quiet(env)
    ensures var ids := OpenIds(d, env); ids.0.Some? && ids.1.Some? ==> ids.1.value == ids.0.value + 1
  {
    var first := FirstOpen(d, env);
    if first.backup.Some? {
      RunConcat(first, env(Stat(0)), env(Open(1)));
      RunWithoutRename(first, env(Stat(0)) + env(Open(1)));
    }
  }

  /** A file that was active at the second open ends the stream up to then. */
  lemma NewestFile(d: Disk, env: Environment, id: nat)
    requires Inv(d) && OpenIds(d, env).1 == Some(id)
    ensures var seen := AfterOpens(d, env);
            id < |seen.files| && |Stream(d)| <= Base(seen, id) + |seen.files[id]|
  {
    var second, seen := SecondOpen(d, env), AfterOpens(d, env);
    OpensInOrder(d, env);
    StreamGrows(d, second);
    StreamGrows(second, seen);
    FileInStream(second, id);
    LaterFile(second, seen, id);
  }

  /** The newest file of `d` ends the stream of `d`, and only grows afterwards. */
  lemma LastFile(d: Disk, seen: Disk, id: nat)
    requires Inv(d) && Later(d, seen) && id + 1 == |d.files|
    ensures id < |seen.files| && Base(d, id) == Base(seen, id) && |d.files[id]| <= |seen.files[id]|
    ensures |Stream(d)| == Base(seen, id) + |d.files[id]|
  {
    StreamGrows(d, seen);
    LaterFile(d, seen, id);
    FileInStream(d, id);
  }

  /** A stopped session is always read without a gap, whatever happens between the opens. */
  lemma StoppedIsWhole(d: Disk, env: Environment, start: Cursor, end: Cursor)
    requires Inv(d) && Sound(d, start) && Sound(d, end) && Covering(OpenIds(d, env), start, Some(end))
    ensures InFiles(AfterOpens(d, env), OpenIds(d, env), start, Some(end))
    ensures var cut := CutFrom(AfterOpens(d, env), OpenIds(d, env), start, Some(end));
            cut.gap == cut.resume && cut.end == Pos(d, end) && SeesAll(d, start, Some(end), cut)
  {
    CoveredInFiles(d, env, start, Some(end));
    OpensInOrder(d, env);
    OpenIdsMeaning(d, env);
    SoundStable(d, AfterOpens(d, env), end);
    if start.id < end.id { BackupAtOpen(d, env, start.id); }
  }

  /** A read that began in the active file reaches everything logged before it. */
  lemma ActiveIsWhole(d: Disk, env: Environment, start: Cursor)
    requires Inv(d) && Sound(d, start) && OpenIds(d, env).1 == Some(start.id)
    ensures InFiles(AfterOpens(d, env), OpenIds(d, env), start, None)
    ensures var cut := CutFrom(AfterOpens(d, env), OpenIds(d, env), start, None);
            cut.gap == cut.resume && |Stream(d)| <= cut.end
  {
    CoveredInFiles(d, env, start, None);
    NewestFile(d, env, start.id);
  }

  /** A read that began in the backup, when nothing is renamed between the opens. */
  lemma QuietBackupIsWhole(d: Disk, env: Environment, start: Cursor)
    requires Inv(d) && Sound(d, start) && OpenIds(d, env).0 == Some(start.id) && Quiet(env)
    ensures InFiles(AfterOpens(d, env), OpenIds(d, env), start, None)
    ensures var cut := CutFrom(AfterOpens(d, env), OpenIds(d, env), start, None);
            cut.gap == cut.resume && |Stream(d)| <= cut.end
  {
    CoveredInFiles(d, env, start, None);
    QuietNeighbours(d, env);
    OpensInOrder(d, env);
    var seen := AfterOpens(d, env);
    BackupAtOpen(d, env, start.id);
    if OpenIds(d, env).1.Some? {
      NewestFile(d, env, start.id + 1);
    } else {
      if start.id + 1 < |d.files| { SecondName(d, env, start.id + 1); }
      LastFile(d, seen, start.id);
    }
  }

  /** Without a rename between the opens nothing is skipped, and everything logged before is reached. */
  lemma QuietIsWhole(d: Disk, env: Environment, start: Cursor, end: Option<Cursor>)
    requires Inv(d) && Sound(d, start) && (end.Some? ==> Sound(d, end.value))
    requires Covering(OpenIds(d, env), start, end) && (Quiet(env) || end.Some?)
    ensures InFiles(AfterOpens(d, env), OpenIds(d, env), start, end)
    ensures var cut := CutFrom(AfterOpens(d, env), OpenIds(d, env), start, end);
            cut.gap == cut.resume && (end.None? ==> |Stream(d)| <= cut.end)
  {
    if end.Some? {
      StoppedIsWhole(d, env, start, end.value);
    } else if OpenIds(d, env).1 == Some(start.id) {
      ActiveIsWhole(d, env, start);
    } else {
      QuietBackupIsWhole(d, env, start);
    }
  }

  /** The skipped part is empty exactly if the files between the first and the last one are. */
  lemma ContiguousExactly(d: Disk, env: Environment, start: Cursor, end: Option<Cursor>)
    requires Inv(d) && Sound(d, start) && (end.Some? ==> Sound(d, end.value))
    requires Covering(OpenIds(d, env), start, end)
    ensures InFiles(AfterOpens(d, env), OpenIds(d, env), start, end)
    ensures var seen, ids := AfterOpens(d, env), OpenIds(d, env);
            var cut := CutFrom(seen, ids, start, end);
            cut.gap == cut.resume <==> forall k :: start.id < k < LastId(ids, start, end) ==> seen.files[k] == []
  {
    CoveredInFiles(d, env, start, end);
    var seen, last := AfterOpens(d, env), LastId(OpenIds(d, env), start, end);
    if start.id < last { FlatBase(seen, start.id + 1, last); }
  }

  lemma {:induction false} FlatBase(d: Disk, i: nat, j: nat)
    requires i <= j <= |d.files|
    ensures Base(d, i) <= Base(d, j)
    ensures Base(d, i) == Base(d, j) <==> forall k :: i <= k < j ==> d.files[k] == []
    decreases j - i
  {
    if i < j {
      FlatBase(d, i, j - 1);
      FileInStream(d, j - 1);
    }
  }

  /** A read that began in the backup and was overtaken misses the first byte of the next file. */
  lemma OvertakenMisses(d: Disk, env: Environment, start: Cursor)
    requires Inv(d) && Sound(d, start) && Overtaken(d, env, start, None)
    ensures InFiles(AfterOpens(d, env), OpenIds(d, env), start, None)
    ensures var cut := CutFrom(AfterOpens(d, env), OpenIds(d, env), start, None);
            && Pos(d, start) <= cut.gap < |Stream(d)| && !SeenAt(cut, cut.gap)
            && cut.gap == Base(d, start.id + 1) && (cut.end <= cut.gap || |Stream(d)| <= cut.resume)
  {
    CoveredInFiles(d, env, start, None);
    OpensInOrder(d, env);
    OpenIdsMeaning(d, env);
    var seen, ids, k := AfterOpens(d, env), OpenIds(d, env), start.id + 1;
    BackupAtOpen(d, env, start.id);
    SecondName(d, env, k);
    LastFile(d, seen, k);
    GapAfterFirst(d, env, start);
    FileInStream(seen, k);
    if ids.1.Some? { BaseOrder(seen, k + 1, ids.1.value); }
    SoundStable(d, seen, start);
  }

  /** A running session that began in the backup is read up to the end of that file, whatever comes then. */
  lemma GapAfterFirst(d: Disk, env: Environment, start: Cursor)
    requires Inv(d) && Sound(d, start) && OpenIds(d, env).0 == Some(start.id)
    ensures var seen, ids := AfterOpens(d, env), OpenIds(d, env);
            && InFiles(seen, ids, start, None)
            && Pos(seen, start) <= CutFrom(seen, ids, start, None).gap == Base(seen, start.id + 1)
  {
    CoveredInFiles(d, env, start, None);
    OpenIdsMeaning(d, env);
    FileInStream(AfterOpens(d, env), start.id);
  }

  /** A read that began in the backup and was not overtaken reaches everything logged before it. */
  lemma BackupSeesAll(d: Disk, env: Environment, start: Cursor)
    requires Inv(d) && Sound(d, start) && OpenIds(d, env).0 == Some(start.id) && !Overtaken(d, env, start, None)
    ensures InFiles(AfterOpens(d, env), OpenIds(d, env), start, None)
    ensures var cut := CutFrom(AfterOpens(d, env), OpenIds(d, env), start, None);
            |Stream(d)| <= cut.gap || (cut.gap == cut.resume && |Stream(d)| <= cut.end)
  {
    CoveredInFiles(d, env, start, None);
    if Quiet(env) {
      QuietBackupIsWhole(d, env, start);
    } else {
      OpensInOrder(d, env);
      var seen := AfterOpens(d, env);
      BackupAtOpen(d, env, start.id);
      FileInStream(seen, start.id);
      LastFile(d, seen, |d.files| - 1);
    }
  }

  /** An answer misses something that was logged before the attempt began exactly if it was overtaken. */
  lemma MissesExactly(d: Disk, env: Environment, start: Cursor, end: Option<Cursor>)
    requires Inv(d) && Sound(d, start) && (end.Some? ==> Sound(d, end.value))
    requires Covering(OpenIds(d, env), start, end)
    ensures InFiles(AfterOpens(d, env), OpenIds(d, env), start, end)
    ensures SeesAll(d, start, end, CutFrom(AfterOpens(d, env), OpenIds(d, env), start, end)) <==> !Overtaken(d, env, start, end)
  {
    CoveredInFiles(d, env, start, end);
    if end.Some? {
      StoppedIsWhole(d, env, start, end.value);
    } else if OpenIds(d, env).1 == Some(start.id) {
      ActiveIsWhole(d, env, start);
      OpenIdsMeaning(d, env);
    } else if Overtaken(d, env, start, None) {
      OvertakenMisses(d, env, start);
    } else {
      BackupSeesAll(d, env, start);
    }
  }

  // ---- What an answer tells about later and earlier states ----------------------------------

  /** The answer reaches everything in the log `d`. */
  ghost predicate Reaches(d: Disk, cut: Cut) {
    |Stream(d)| <= cut.gap || (cut.gap == cut.resume && |Stream(d)| <= cut.end)
  }

  /**
   * What an answered read, begun in `d` and over in `e`, has seen. If its start
   * still has a name afterwards, nothing was skipped. Unless it was overtaken it
   * reaches everything in `d`; otherwise it shows nothing of `d` after its first file.
   */
  ghost predicate Saw(d: Disk, e: Disk, start: Cursor, end: Option<Cursor>, quiet: bool, overtaken: bool, cut: Cut) {
    && Linked(d, start.id) && (Linked(e, start.id) ==> cut.gap == cut.resume)
    && (end.Some? ==> cut.gap == cut.resume && !overtaken)
    && (quiet ==> cut.gap == cut.resume && !overtaken)
    && (end.None? && !overtaken ==> Reaches(d, cut))
    && (overtaken ==>
          && end.None? && start.id + 1 < |e.files|
          && cut.gap == Base(e, start.id + 1) && !SeenAt(cut, cut.gap)
          && (cut.end <= cut.gap || |Stream(d)| <= cut.resume))
  }

  /** A file that was opened under a name had one before. */
  lemma OpenedWasLinked(d: Disk, env: Environment, id: nat)
    requires Inv(d) && HasId(OpenIds(d, env), id) && id < |d.files|
    ensures Linked(d, id)
  {
    OpensInOrder(d, env);
    if OpenIds(d, env).0 == Some(id) {
      LinkedBefore(d, FirstOpen(d, env), id);
    } else {
      LinkedBefore(d, SecondOpen(d, env), id);
    }
  }

  lemma StillLinkedIsWhole(d: Disk, env: Environment, start: Cursor, end: Option<Cursor>, e: Disk)
    requires Inv(d) && Sound(d, start) && (end.Some? ==> Sound(d, end.value))
    requires Covering(OpenIds(d, env), start, end) && Later(AfterOpens(d, env), e) && Linked(e, start.id)
    ensures InFiles(AfterOpens(d, env), OpenIds(d, env), start, end)
    ensures var cut := CutFrom(AfterOpens(d, env), OpenIds(d, env), start, end); cut.gap == cut.resume
  {
    CoveredInFiles(d, env, start, end);
    OpensInOrder(d, env);
    OpenIdsMeaning(d, env);
    if end.Some? {
      StoppedIsWhole(d, env, start, end.value);
    } else if start.id < LastId(OpenIds(d, env), start, end) {
      var second, seen := SecondOpen(d, env), AfterOpens(d, env);
      LinkedBefore(seen, e, start.id);
      LinkedBefore(second, seen, start.id);
    }
  }

  /** An answered attempt that began in `begun`, as part of a read that began in `d`. */
  lemma AttemptSaw(d: Disk, begun: Disk, env: Environment, start: Cursor, end: Option<Cursor>, e: Disk)
    requires Inv(d) && Later(d, begun) && Sound(d, start) && (end.Some? ==> Sound(d, end.value))
    requires Inv(begun) && Sound(begun, start) && (end.Some? ==> Sound(begun, end.value))
    requires Covering(OpenIds(begun, env), start, end) && Later(AfterOpens(begun, env), e)
    ensures InFiles(AfterOpens(begun, env), OpenIds(begun, env), start, end)
    ensures Saw(d, e, start, end, Quiet(env), Overtaken(begun, env, start, end),
                CutFrom(AfterOpens(begun, env), OpenIds(begun, env), start, end))
  {
    CoveredInFiles(begun, env, start, end);
    OpenedWasLinked(begun, env, start.id);
    LinkedBefore(d, begun, start.id);
    StreamGrows(d, begun);
    if Linked(e, start.id) { StillLinkedIsWhole(begun, env, start, end, e); }
    if Quiet(env) || end.Some? { QuietIsWhole(begun, env, start, end); }
    if Overtaken(begun, env, start, end) {
      OvertakenMisses(begun, env, start);
      OpensInOrder(begun, env);
      LaterTransitive(begun, AfterOpens(begun, env), e);
      StreamGrows(begun, e);
    } else if end.None? {
      if OpenIds(begun, env).1 == Some(start.id) {
        ActiveIsWhole(begun, env, start);
      } else {
        BackupSeesAll(begun, env, start);
      }
    }
  }
}
