/**
 * The session-scoped reader itself (internal/gsm/sms_session.go): the loops of
 * one attempt, call by call, proved against `SmsOutcome.Outcome`.
 */
module SmsSpan {
  import opened Common
  import opened LineWindow
  import opened LogFiles
  import opened SmsCursor
  import opened SmsOutcome

  /** smsSegment: an open file, identified by its mark, and the part to read. */
  datatype Segment = Segment(mark: Cursor, start: nat, end: nat)

  ghost predicate SegmentIn(d: Disk, s: Segment) {
    && s.mark.id < |d.files|
    && s.start <= s.end <= |d.files[s.mark.id]|
  }

  ghost predicate SegmentsIn(d: Disk, segments: seq<Segment>) {
    forall i :: 0 <= i < |segments| ==> SegmentIn(d, segments[i])
  }

  function Slice(d: Disk, s: Segment): seq<byte>
    requires SegmentIn(d, s)
  {
    d.files[s.mark.id][s.start..s.end]
  }

  ghost function SpanOf(d: Disk, segments: seq<Segment>): seq<byte>
    requires SegmentsIn(d, segments)
  {
    if segments == [] then []
    else SpanOf(d, segments[..|segments| - 1]) + Slice(d, segments[|segments| - 1])
  }

  lemma SliceStable(d: Disk, e: Disk, s: Segment)
    requires Inv(d) && Later(d, e) && SegmentIn(d, s)
    ensures SegmentIn(e, s) && Slice(e, s) == Slice(d, s)
  {
    LaterFile(d, e, s.mark.id);
  }

  /** What has been opened: at most the backup and the active file, oldest first, each up to its size then. */
  ghost predicate Opened(d: Disk, files: seq<Segment>) {
    && |files| <= 2
    && SegmentsIn(d, files)
    && (forall i :: 0 <= i < |files| ==> Measured(d, files[i]))
    && (|files| == 2 ==> files[0].mark.id < files[1].mark.id)
  }

  ghost predicate Measured(d: Disk, s: Segment)
    requires SegmentIn(d, s)
  {
    s.start == 0 && Sound(d, s.mark) && s.mark.offset == s.end == |d.files[s.mark.id]|
  }

  method OpenOne(dir: LogDir, k: nat, ofBackup: bool, env: Environment, fails: Faults)
    returns (ok: bool, file: Option<Segment>, ghost atOpen: Disk)
    requires Inv(dir.d)
    modifies dir
    ensures Still(env) ==> dir.d == old(dir.d)
    ensures atOpen == Run(old(dir.d), env(Open(k))) && Inv(dir.d)
    ensures Later(old(dir.d), atOpen) && Later(atOpen, dir.d)
    ensures
      var name := if ofBackup then atOpen.backup else atOpen.current;
      !ok <==> fails(Open(k)) || (name.Some? && fails(Stat(k)))
    ensures
      var name := if ofBackup then atOpen.backup else atOpen.current;
      ok ==>
        && file.Some? == name.Some?
        && (file.None? ==> dir.d == atOpen)
        && (file.Some? ==>
              && dir.d == Run(atOpen, env(Stat(k)))
              && name.value < |dir.d.files|
              && file.value == Segment(Mark(dir.d, name.value), 0, |dir.d.files[name.value]|))
  {
    LaterReflexive(dir.d);
    dir.Advance(dir.d, env(Open(k)));
    atOpen := dir.d;
    LaterReflexive(dir.d);
    ok, file := true, None;
    var name := if ofBackup then dir.d.backup else dir.d.current;
    if fails(Open(k)) {
      ok := false;
      return;
    }
    if name.None? { return; }
    dir.Advance(atOpen, env(Stat(k)));
    LaterFile(atOpen, dir.d, name.value);
    if fails(Stat(k)) {
      ok := false;
      return;
    }
    file := Some(Segment(Mark(dir.d, name.value), 0, |dir.d.files[name.value]|));
  }

  function Listed(one: Option<Segment>, two: Option<Segment>): seq<Segment> {
    (if one.Some? then [one.value] else []) + (if two.Some? then [two.value] else [])
  }

  ghost predicate OpenedAs(ids: Ids, files: seq<Segment>) {
    && |files| == (if ids.0.Some? then 1 else 0) + (if ids.1.Some? then 1 else 0)
    && (ids.0.Some? ==> files[0].mark.id == ids.0.value)
    && (ids.1.Some? ==> files[|files| - 1].mark.id == ids.1.value)
  }

  /** The names that resolve are opened, the backup first. */
  method OpenFiles(dir: LogDir, env: Environment, fails: Faults)
    returns (ok: bool, files: seq<Segment>)
    requires Inv(dir.d)
    modifies dir
    ensures Still(env) ==> dir.d == old(dir.d)
    ensures Inv(dir.d) && Later(old(dir.d), dir.d)
    ensures !ok <==> OpenFault(old(dir.d), env, fails)
    ensures ok ==> dir.d == AfterOpens(old(dir.d), env)
    ensures ok ==> Opened(dir.d, files) && OpenedAs(OpenIds(old(dir.d), env), files)
  {
    ghost var before := dir.d;
    OpensInOrder(before, env);
    files := [];
    var one; ghost var d1;
    ok, one, d1 := OpenOne(dir, 0, true, env, fails);
    ghost var m := dir.d;
    LaterTransitive(before, d1, m);
    if !ok { return; }
    var two; ghost var d2;
    ok, two, d2 := OpenOne(dir, 1, false, env, fails);
    LaterTransitive(before, m, d2);
    LaterTransitive(before, d2, dir.d);
    if !ok { return; }
    files := Listed(one, two);
    OpenBoth(before, env, one, two);
  }

  lemma OpenBoth(before: Disk, env: Environment, one: Option<Segment>, two: Option<Segment>)
    requires Inv(before)
    requires
      var ids, m, d := OpenIds(before, env), BackupSeen(before, env), AfterOpens(before, env);
      && one.Some? == ids.0.Some? && two.Some? == ids.1.Some?
      && (one.Some? ==> ids.0.value < |m.files| && one.value == Segment(Mark(m, ids.0.value), 0, |m.files[ids.0.value]|))
      && (two.Some? ==> ids.1.value < |d.files| && two.value == Segment(Mark(d, ids.1.value), 0, |d.files[ids.1.value]|))
    ensures Opened(AfterOpens(before, env), Listed(one, two)) && OpenedAs(OpenIds(before, env), Listed(one, two))
  {
    OpensInOrder(before, env);
    OpenIdsMeaning(before, env);
    var first, m, d := FirstOpen(before, env), BackupSeen(before, env), AfterOpens(before, env);
    if one.Some? {
      LaterFile(first, m, one.value.mark.id);
      LaterFile(m, d, one.value.mark.id);
    }
  }

  /** The place of each open file is that of its name. */
  lemma PlaceOf(ids: Ids, opens: seq<Segment>, i: nat)
    requires OpenedAs(ids, opens) && i < |opens| && (|opens| == 2 ==> opens[0].mark.id < opens[1].mark.id)
    ensures HasId(ids, opens[i].mark.id) && IndexIn(ids, opens[i].mark.id) == i
  {
  }

  lemma PlaceFound(ids: Ids, opens: seq<Segment>, id: nat)
    requires OpenedAs(ids, opens) && HasId(ids, id)
    ensures IndexIn(ids, id) < |opens| && opens[IndexIn(ids, id)].mark.id == id
  {
  }

  /** A file that is open can be asked later, and recognises exactly its own cursors. */
  lemma Recognised(seen: Disk, d: Disk, id: nat, c: Cursor)
    requires Inv(seen) && Later(seen, d) && Sound(seen, c) && id < |seen.files|
    ensures id < |d.files| && (ValidIn(d, id, c) <==> id == c.id)
  {
    SoundStable(seen, d, c);
    LaterFile(seen, d, id);
    ValidIffSameFile(d, id, c);
  }

  /** The first selection loop: the file in which the session started. */
  method LocateStart(dir: LogDir, ghost seen: Disk, opens: seq<Segment>, start: Cursor,
                     env: Environment, fails: Faults)
    returns (first: int, files: seq<Segment>)
    requires Inv(seen) && Inv(dir.d) && Later(seen, dir.d) && Opened(seen, opens) && Sound(seen, start)
    modifies dir
    ensures Still(env) ==> dir.d == old(dir.d)
    ensures Inv(dir.d) && Later(seen, dir.d)
    ensures -1 <= first < |opens|
    ensures first >= 0 ==> opens[first].mark.id == start.id && files == opens[first := opens[first].(start := start.offset)]
    ensures first >= 0 ==> start.offset <= opens[first].end && !fails(SeekStart(first))
    ensures first < 0 ==> forall i :: 0 <= i < |opens| && opens[i].mark.id == start.id ==> fails(SeekStart(i))
  {
    first, files := -1, opens;
    var i := 0;
    while i < |files|
      invariant 0 <= i <= |files| == |opens| && -1 <= first < i
      invariant Inv(dir.d) && Later(seen, dir.d) && (Still(env) ==> dir.d == old(dir.d))
      invariant first < 0 ==> files == opens
      invariant first >= 0 ==> opens[first].mark.id == start.id && files == opens[first := opens[first].(start := start.offset)]
      invariant first >= 0 ==> !fails(SeekStart(first))
      invariant first < 0 ==> forall j :: 0 <= j < i && opens[j].mark.id == start.id ==> fails(SeekStart(j))
    {
      dir.Advance(seen, env(SeekStart(i)));
      assert SegmentIn(seen, opens[i]);
      Recognised(seen, dir.d, files[i].mark.id, start);
      if !fails(SeekStart(i)) && ValidIn(dir.d, files[i].mark.id, start) {
        first := i;
        files := files[i := files[i].(start := start.offset)];
      }
      i := i + 1;
    }
  }

  /** The second selection loop: the file in which a stopped session ended. */
  method LocateEnd(dir: LogDir, ghost seen: Disk, opens: seq<Segment>, first: nat, end: Cursor,
                   env: Environment, fails: Faults)
    returns (last: int, files: seq<Segment>)
    requires Inv(seen) && Inv(dir.d) && Later(seen, dir.d) && Sound(seen, end)
    requires first < |opens| && forall i :: 0 <= i < |opens| ==> opens[i].mark.id < |seen.files|
    requires forall i, j :: 0 <= i < j < |opens| ==> opens[i].mark.id < opens[j].mark.id
    modifies dir
    ensures Still(env) ==> dir.d == old(dir.d)
    ensures Inv(dir.d) && Later(seen, dir.d)
    ensures last == -1 || first <= last < |opens|
    ensures last >= 0 ==> opens[last].mark.id == end.id && files == opens[last := opens[last].(end := end.offset)]
    ensures last >= 0 ==> !fails(SeekEnd(last))
    ensures last < 0 ==> forall i :: first <= i < |opens| && opens[i].mark.id == end.id ==> fails(SeekEnd(i))
  {
    last, files := -1, opens;
    var i := first;
    while i < |files|
      invariant first <= i <= |files| == |opens| && (last == -1 || first <= last < i)
      invariant Inv(dir.d) && Later(seen, dir.d) && (Still(env) ==> dir.d == old(dir.d))
      invariant last < 0 ==> files == opens
      invariant last >= 0 ==> opens[last].mark.id == end.id && files == opens[last := opens[last].(end := end.offset)]
      invariant last >= 0 ==> !fails(SeekEnd(last))
      invariant last < 0 ==> forall j :: first <= j < i && opens[j].mark.id == end.id ==> fails(SeekEnd(j))
    {
      dir.Advance(seen, env(SeekEnd(i)));
      Recognised(seen, dir.d, files[i].mark.id, end);
      if !fails(SeekEnd(i)) && ValidIn(dir.d, files[i].mark.id, end) {
        last := i;
        files := files[i := files[i].(end := end.offset)];
      }
      i := i + 1;
    }
  }

  lemma {:induction false} SpanSplit(d: Disk, files: seq<Segment>, i: nat)
    requires SegmentsIn(d, files) && i < |files|
    ensures SegmentsIn(d, files[..i]) && SegmentsIn(d, files[..i + 1])
    ensures SpanOf(d, files[..i + 1]) == SpanOf(d, files[..i]) + Slice(d, files[i])
    ensures SpanOf(d, files[..i + 1]) <= SpanOf(d, files)
    decreases |files| - i
  {
    assert files[..i + 1][..i] == files[..i];
    if i + 1 < |files| {
      SpanSplit(d, files, i + 1);
    } else {
      assert files[..i + 1] == files;
    }
  }

  function Sizes(files: seq<Segment>): (sizes: seq<nat>)
    requires forall i :: 0 <= i < |files| ==> files[i].start <= files[i].end
    ensures |sizes| == |files| && forall i :: 0 <= i < |sizes| ==> sizes[i] == files[i].end - files[i].start
  {
    seq<nat>(|files|, i requires 0 <= i < |files| => files[i].end - files[i].start)
  }

  lemma {:induction false} PrefixSize(d: Disk, files: seq<Segment>, i: nat)
    requires SegmentsIn(d, files) && i <= |files|
    ensures SegmentsIn(d, files[..i]) && |SpanOf(d, files[..i])| == Sum(Sizes(files)[..i])
    decreases i
  {
    if i > 0 {
      PrefixSize(d, files, i - 1);
      SpanSplit(d, files, i - 1);
      assert Sizes(files)[..i][..i - 1] == Sizes(files)[..i - 1];
    }
  }

  lemma TotalSize(d: Disk, files: seq<Segment>)
    requires SegmentsIn(d, files)
    ensures |SpanOf(d, files)| == Sum(Sizes(files))
  {
    PrefixSize(d, files, |files|);
    assert files[..|files|] == files && Sizes(files)[..|files|] == Sizes(files);
  }

  method TotalBytes(ghost seen: Disk, files: seq<Segment>) returns (total: nat)
    requires SegmentsIn(seen, files)
    ensures total == |SpanOf(seen, files)|
  {
    total := 0;
    var i := 0;
    while i < |files|
      invariant 0 <= i <= |files|
      invariant SegmentsIn(seen, files[..i]) && total == |SpanOf(seen, files[..i])|
    {
      SpanSplit(seen, files, i);
      assert SegmentIn(seen, files[i]);
      total := total + (files[i].end - files[i].start);
      i := i + 1;
    }
    assert files[..i] == files;
  }

  /** The state of the copying loop after the segments that make up `pre`. */
  ghost predicate Copied(span: seq<byte>, pre: seq<byte>, cut: nat, startsLine: bool,
                         skip: nat, out: seq<byte>, cutChecked: bool, dropFirst: bool) {
    && pre <= span && cut <= |span|
    && skip == (if |pre| >= cut then 0 else cut - |pre|)
    && out == (if |pre| >= cut then pre[cut..] else [])
    && (cutChecked <==> cut == 0 || |pre| > cut)
    && (cutChecked ==> dropFirst == DropAt(span, cut, startsLine))
  }

  /** A segment that lies wholly before the cut. */
  lemma CopiedSkip(span: seq<byte>, pre: seq<byte>, slice: seq<byte>, next: seq<byte>, cut: nat, startsLine: bool,
                   skip: nat, out: seq<byte>, cutChecked: bool, dropFirst: bool)
    requires Copied(span, pre, cut, startsLine, skip, out, cutChecked, dropFirst)
    requires next == pre + slice && next <= span && skip >= |slice|
    ensures Copied(span, next, cut, startsLine, skip - |slice|, out, cutChecked, dropFirst)
  {
    if slice == [] { assert next == pre; }
  }

  /** A segment that reaches past the cut. */
  lemma CopiedTake(span: seq<byte>, pre: seq<byte>, slice: seq<byte>, next: seq<byte>, cut: nat, startsLine: bool,
                   skip: nat, out: seq<byte>, cutChecked: bool, dropFirst: bool, dropFirst': bool)
    requires Copied(span, pre, cut, startsLine, skip, out, cutChecked, dropFirst)
    requires next == pre + slice && next <= span && skip < |slice|
    requires dropFirst' == if cutChecked then dropFirst else DropAt(span, cut, startsLine)
    ensures Copied(span, next, cut, startsLine, 0, out + slice[skip..], true, dropFirst')
  {
    assert next[cut..] == out + slice[skip..];
  }

  lemma CopiedAll(span: seq<byte>, max: nat, startsLine: bool,
                  skip: nat, out: seq<byte>, cutChecked: bool, dropFirst: bool)
    requires Copied(span, span, CutOf(|span|, max), startsLine, skip, out, cutChecked, dropFirst)
    ensures KeepLines(out, dropFirst) == Window(span, startsLine, max)
  {
    var cut := CutOf(|span|, max);
    if !cutChecked {
      assert out == [] && span[cut..] == [];
      KeepNothing(dropFirst);
      KeepNothing(DropAt(span, cut, startsLine));
    }
  }

  lemma KeepNothing(drop: bool)
    ensures KeepLines([], drop) == []
  {
  }

  /** Where the byte in front of the segment's first wanted byte lies, perhaps in the previous file. */
  function LookBack(files: seq<Segment>, i: nat, skip: nat): (nat, int)
    requires i < |files|
  {
    var offset := files[i].start + skip - 1;
    if offset < 0 && i > 0 then (files[i - 1].mark.id, files[i - 1].end - 1) else (files[i].mark.id, offset)
  }

  /** One round of the copying loop, for a segment that reaches past the cut. */
  method TakeSegment(dir: LogDir, ghost seen: Disk, i: nat, segment: Segment, previous: (nat, int), skip: nat,
                     sofar: seq<byte>, cutChecked: bool, wasPartial: bool, env: Environment, fails: Faults)
    returns (ok: bool, out: seq<byte>, partial: bool)
    requires Inv(seen) && Inv(dir.d) && Later(seen, dir.d) && SegmentIn(seen, segment)
    requires skip < segment.end - segment.start
    requires !cutChecked && previous.1 >= 0 ==> previous.0 < |seen.files| && previous.1 < |seen.files[previous.0]|
    modifies dir
    ensures Still(env) ==> dir.d == old(dir.d)
    ensures Inv(dir.d) && Later(seen, dir.d)
    ensures !ok <==> (!cutChecked && previous.1 >= 0 && fails(Previous(i))) || fails(Copy(i))
    ensures ok ==> out == sofar + Slice(seen, segment)[skip..]
    ensures ok ==> partial == if cutChecked then wasPartial
                              else previous.1 >= 0 && seen.files[previous.0][previous.1] != NL
  {
    ok, out, partial := true, sofar, wasPartial;
    if !cutChecked {
      partial := false;
      if previous.1 >= 0 {
        dir.Advance(seen, env(Previous(i)));
        LaterFile(seen, dir.d, previous.0);
        if fails(Previous(i)) { return false, out, partial; }
        partial := dir.d.files[previous.0][previous.1] != NL;
      }
    }
    dir.Advance(seen, env(Copy(i)));
    if fails(Copy(i)) { return false, out, partial; }
    SliceStable(seen, dir.d, segment);
    assert dir.d.files[segment.mark.id][segment.start + skip..segment.end] == Slice(seen, segment)[skip..];
    out := out + dir.d.files[segment.mark.id][segment.start + skip..segment.end];
  }

  ghost predicate NoFaultBefore(sizes: seq<nat>, cut: nat, i: nat, fails: Faults)
    requires i <= |sizes|
  {
    forall j :: 0 <= j < i ==> !SegmentFault(sizes, cut, j, fails)
  }

  /** Whether the loop meets a fault in segment `i`, in terms of its variables. */
  lemma FaultWhenTaken(seen: Disk, files: seq<Segment>, cut: nat, i: nat, skip: nat, cutChecked: bool, fails: Faults)
    requires SegmentsIn(seen, files) && i < |files| && SegmentsIn(seen, files[..i])
    requires var pre := |SpanOf(seen, files[..i])|;
             skip == (if pre >= cut then 0 else cut - pre) && (cutChecked <==> cut == 0 || pre > cut)
    ensures
      var met := skip < files[i].end - files[i].start && (fails(Copy(i)) || (!cutChecked && fails(Previous(i))));
      && (met ==> CopyFault(Sizes(files), cut, fails))
      && (!met && NoFaultBefore(Sizes(files), cut, i, fails) ==> NoFaultBefore(Sizes(files), cut, i + 1, fails))
  {
    PrefixSize(seen, files, i);
    PrefixSize(seen, files, i + 1);
    SpanSplit(seen, files, i);
    assert SegmentFault(Sizes(files), cut, i, fails) <==>
             skip < files[i].end - files[i].start && (fails(Copy(i)) || (!cutChecked && fails(Previous(i))));
  }

  /** One round of the copying loop. */
  method CopyRound(dir: LogDir, ghost seen: Disk, files: seq<Segment>, startsLine: bool, ghost cut: nat, i: nat,
                   skip: nat, sofar: seq<byte>, checked: bool, partial: bool, env: Environment, fails: Faults)
    returns (ok: bool, rest: nat, out: seq<byte>, cutChecked: bool, dropFirst: bool)
    requires Inv(seen) && Inv(dir.d) && Later(seen, dir.d) && SegmentsIn(seen, files)
    requires i < |files| <= 2 && SegmentsIn(seen, files[..i]) && forall k :: 0 < k < |files| ==> files[k].start == 0
    requires Copied(SpanOf(seen, files), SpanOf(seen, files[..i]), cut, startsLine, skip, sofar, checked, partial)
    modifies dir
    ensures Still(env) ==> dir.d == old(dir.d)
    ensures Inv(dir.d) && Later(seen, dir.d) && SegmentsIn(seen, files[..i + 1])
    ensures !ok <==> skip < files[i].end - files[i].start && (fails(Copy(i)) || (!checked && fails(Previous(i))))
    ensures ok ==> Copied(SpanOf(seen, files), SpanOf(seen, files[..i + 1]), cut, startsLine, rest, out, cutChecked, dropFirst)
  {
    ok, rest, out, cutChecked, dropFirst := true, skip, sofar, checked, partial;
    ghost var span := SpanOf(seen, files);
    SpanSplit(seen, files, i);
    ghost var pre, slice, next := SpanOf(seen, files[..i]), Slice(seen, files[i]), SpanOf(seen, files[..i + 1]);
    var n := files[i].end - files[i].start;
    if skip >= n {
      CopiedSkip(span, pre, slice, next, cut, startsLine, skip, out, cutChecked, dropFirst);
      rest := skip - n;
    } else {
      if !cutChecked { PreviousIsCut(seen, files, i, cut, skip); }
      ok, out, dropFirst := TakeSegment(dir, seen, i, files[i], LookBack(files, i, skip), skip,
                                        out, cutChecked, dropFirst, env, fails);
      if !ok { return; }
      CopiedTake(span, pre, slice, next, cut, startsLine, skip, sofar, checked, partial, dropFirst);
      rest, cutChecked := 0, true;
    }
  }

  /** The copying loop: `cut` bytes are skipped, the rest is copied. */
  method CopyLoop(dir: LogDir, ghost seen: Disk, files: seq<Segment>, startsLine: bool, cut: nat,
                  env: Environment, fails: Faults)
    returns (ok: bool, out: seq<byte>, cutChecked: bool, dropFirst: bool)
    requires Inv(seen) && Inv(dir.d) && Later(seen, dir.d) && SegmentsIn(seen, files)
    requires |files| <= 2 && forall i :: 0 < i < |files| ==> files[i].start == 0
    requires cut <= |SpanOf(seen, files)|
    modifies dir
    ensures Still(env) ==> dir.d == old(dir.d)
    ensures Inv(dir.d) && Later(seen, dir.d)
    ensures !ok <==> CopyFault(Sizes(files), cut, fails)
    ensures ok ==> Copied(SpanOf(seen, files), SpanOf(seen, files), cut, startsLine, 0, out, cutChecked, dropFirst)
  {
    ok, out, dropFirst := true, [], !startsLine;
    var skip: nat := cut;
    cutChecked := cut == 0;
    assert files[..0] == [];
    var i := 0;
    while i < |files|
      invariant 0 <= i <= |files|
      invariant Inv(dir.d) && Later(seen, dir.d) && SegmentsIn(seen, files[..i])
      invariant Still(env) ==> dir.d == old(dir.d)
      invariant Copied(SpanOf(seen, files), SpanOf(seen, files[..i]), cut, startsLine, skip, out, cutChecked, dropFirst)
      invariant NoFaultBefore(Sizes(files), cut, i, fails)
    {
      FaultWhenTaken(seen, files, cut, i, skip, cutChecked, fails);
      ok, skip, out, cutChecked, dropFirst :=
        CopyRound(dir, seen, files, startsLine, cut, i, skip, out, cutChecked, dropFirst, env, fails);
      if !ok { return; }
      i := i + 1;
    }
    assert files[..i] == files;
  }

  /** The byte budget: how much to skip, what to copy, whether the first line is partial. */
  method CopySegments(dir: LogDir, ghost seen: Disk, files: seq<Segment>, startsLine: bool, max: nat,
                      env: Environment, fails: Faults)
    returns (ok: bool, out: seq<byte>, truncated: bool, dropFirst: bool)
    requires Inv(seen) && Inv(dir.d) && Later(seen, dir.d) && SegmentsIn(seen, files)
    requires |files| <= 2 && forall i :: 0 < i < |files| ==> files[i].start == 0
    modifies dir
    ensures Still(env) ==> dir.d == old(dir.d)
    ensures Inv(dir.d) && Later(seen, dir.d)
    ensures !ok <==> CopyFault(Sizes(files), CutOf(Sum(Sizes(files)), max), fails)
    ensures ok ==>
              && truncated == (|SpanOf(seen, files)| > max)
              && KeepLines(out, dropFirst) == Window(SpanOf(seen, files), startsLine, max)
  {
    var total := TotalBytes(seen, files);
    TotalSize(seen, files);
    truncated := total > max;
    var skip := if truncated then total - max else 0;
    var cutChecked;
    ok, out, cutChecked, dropFirst := CopyLoop(dir, seen, files, startsLine, skip, env, fails);
    if ok {
      CopiedAll(SpanOf(seen, files), max, startsLine, 0, out, cutChecked, dropFirst);
    }
  }

  ghost predicate PreviousByte(d: Disk, id: nat, offset: int, b: byte) {
    id < |d.files| && 0 <= offset < |d.files[id]| && d.files[id][offset] == b
  }

  /** The byte looked at before a budget cut is the last byte in front of the cut. */
  lemma PreviousIsCut(d: Disk, files: seq<Segment>, i: nat, cut: nat, skip: nat)
    requires SegmentsIn(d, files) && i < |files| <= 2
    requires forall k :: 0 < k < |files| ==> files[k].start == 0
    requires SegmentsIn(d, files[..i]) && 0 < cut == |SpanOf(d, files[..i])| + skip
    requires skip < files[i].end - files[i].start
    ensures cut <= |SpanOf(d, files)|
    ensures PreviousByte(d, LookBack(files, i, skip).0, LookBack(files, i, skip).1, SpanOf(d, files)[cut - 1])
  {
    SpanSplit(d, files, i);
    assert SegmentIn(d, files[i]);
    assert SpanOf(d, files)[cut - 1] == SpanOf(d, files[..i + 1])[cut - 1];
    if i > 0 {
      SpanSplit(d, files, 0);
      assert files[..0] == [] && SegmentIn(d, files[0]);
    } else {
      assert files[..0] == [];
    }
  }

  /** The final validity loop can fail only through I/O. */
  method RecheckAll(dir: LogDir, ghost seen: Disk, files: seq<Segment>, start: Cursor, end: Option<Cursor>,
                    env: Environment, fails: Faults)
    returns (ok: bool)
    requires Inv(seen) && Inv(dir.d) && Later(seen, dir.d)
    requires |files| > 0 && forall i :: 0 <= i < |files| ==> Sound(seen, files[i].mark)
    requires Sound(seen, start) && files[0].mark.id == start.id
    requires end.Some? ==> Sound(seen, end.value) && files[|files| - 1].mark.id == end.value.id
    modifies dir
    ensures Still(env) ==> dir.d == old(dir.d)
    ensures Inv(dir.d) && Later(seen, dir.d)
    ensures !ok <==> RecheckFault(|files|, end.Some?, fails)
  {
    ok := true;
    var i := 0;
    while i < |files|
      invariant 0 <= i <= |files|
      invariant Inv(dir.d) && Later(seen, dir.d) && (Still(env) ==> dir.d == old(dir.d))
      invariant forall j :: 0 <= j < i ==> !fails(Recheck(j))
    {
      dir.Advance(seen, env(Recheck(i)));
      SoundStable(seen, dir.d, files[i].mark);
      ValidIffSameFile(dir.d, files[i].mark.id, files[i].mark);
      if fails(Recheck(i)) || !ValidIn(dir.d, files[i].mark.id, files[i].mark) { return false; }
      i := i + 1;
    }
    dir.Advance(seen, env(RecheckStart));
    SoundStable(seen, dir.d, start);
    ValidIffSameFile(dir.d, files[0].mark.id, start);
    if fails(RecheckStart) || !ValidIn(dir.d, files[0].mark.id, start) { return false; }
    if end.Some? {
      dir.Advance(seen, env(RecheckEnd));
      SoundStable(seen, dir.d, end.value);
      ValidIffSameFile(dir.d, files[|files| - 1].mark.id, end.value);
      if fails(RecheckEnd) || !ValidIn(dir.d, files[|files| - 1].mark.id, end.value) { return false; }
    }
  }

  // ---- One attempt, and what an accepted attempt guarantees ---------------------

  lemma OneSegment(d: Disk, chosen: seq<Segment>)
    requires SegmentsIn(d, chosen) && |chosen| == 1
    ensures SegmentIn(d, chosen[0]) && SpanOf(d, chosen) == Slice(d, chosen[0])
  {
    assert chosen[..0] == [];
  }

  lemma TwoSegments(d: Disk, chosen: seq<Segment>)
    requires SegmentsIn(d, chosen) && |chosen| == 2
    ensures SegmentIn(d, chosen[0]) && SegmentIn(d, chosen[1])
    ensures SpanOf(d, chosen) == Slice(d, chosen[0]) + Slice(d, chosen[1])
  {
    OneSegment(d, chosen[..1]);
  }

  /** The consecutive segments to be read out of the open files. */
  ghost predicate Chosen(d: Disk, ids: Ids, start: Cursor, end: Option<Cursor>, chosen: seq<Segment>) {
    && InFiles(d, ids, start, end)
    && SegmentsIn(d, chosen) && |chosen| == (if LastId(ids, start, end) == start.id then 1 else 2)
    && (forall i :: 0 <= i < |chosen| ==> Sound(d, chosen[i].mark))
    && chosen[0].mark.id == start.id && chosen[0].start == start.offset
    && (|chosen| == 2 ==> chosen[1].start == 0 && chosen[0].end == |d.files[start.id]|)
    && var last := chosen[|chosen| - 1];
       last.mark.id == LastId(ids, start, end) && last.end == StopOffset(d, ids, start, end)
  }

  lemma ChosenSizes(d: Disk, ids: Ids, start: Cursor, end: Option<Cursor>, chosen: seq<Segment>)
    requires Chosen(d, ids, start, end, chosen)
    ensures Sizes(chosen) == SizesOf(d, ids, start, end)
  {
  }

  /** The chosen segments in terms of the stream. */
  lemma SpanInStream(d: Disk, ids: Ids, start: Cursor, end: Option<Cursor>, chosen: seq<Segment>)
    requires Sound(d, start) && (end.Some? ==> Sound(d, end.value)) && Chosen(d, ids, start, end, chosen)
    ensures
      var cut := CutFrom(d, ids, start, end);
      && Pos(d, start) <= cut.gap <= cut.resume <= cut.end <= |Stream(d)|
      && SpanOf(d, chosen) == SeenSpan(d, start, cut)
      && (end.Some? ==> cut.end == Pos(d, end.value))
  {
    FileInStream(d, start.id);
    if |chosen| == 1 {
      OneInStream(d, start, chosen, CutFrom(d, ids, start, end).end);
    } else {
      TwoInStream(d, start, chosen);
    }
  }

  lemma SegmentInStream(d: Disk, s: Segment)
    requires SegmentIn(d, s)
    ensures
      var base := Base(d, s.mark.id);
      && base + s.end <= base + |d.files[s.mark.id]| == Base(d, s.mark.id + 1) <= |Stream(d)|
      && Slice(d, s) == Stream(d)[base + s.start..base + s.end]
  {
    FileInStream(d, s.mark.id);
    SliceOfSlice(Stream(d), Base(d, s.mark.id), Base(d, s.mark.id + 1), s.start, s.end);
  }

  lemma OneInStream(d: Disk, start: Cursor, chosen: seq<Segment>, stop: nat)
    requires SegmentsIn(d, chosen) && |chosen| == 1 && chosen[0].mark.id == start.id && chosen[0].start == start.offset
    requires stop == Base(d, start.id) + chosen[0].end
    ensures Pos(d, start) <= stop <= |Stream(d)| && SpanOf(d, chosen) == SeenSpan(d, start, Cut(stop, stop, stop))
  {
    OneSegment(d, chosen);
    SegmentInStream(d, chosen[0]);
    assert SeenSpan(d, start, Cut(stop, stop, stop)) == Stream(d)[Pos(d, start)..stop];
  }

  lemma TwoInStream(d: Disk, start: Cursor, chosen: seq<Segment>)
    requires SegmentsIn(d, chosen) && |chosen| == 2 && chosen[0].mark.id == start.id && chosen[0].start == start.offset
    requires start.id < chosen[1].mark.id && chosen[1].start == 0 && chosen[0].end == |d.files[start.id]|
    ensures
      var next := chosen[1].mark.id;
      var cut := Cut(Base(d, start.id + 1), Base(d, next), Base(d, next) + chosen[1].end);
      && Pos(d, start) <= cut.gap <= cut.resume <= cut.end <= |Stream(d)|
      && SpanOf(d, chosen) == SeenSpan(d, start, cut)
  {
    TwoSegments(d, chosen);
    SegmentInStream(d, chosen[0]);
    SegmentInStream(d, chosen[1]);
    BaseOrder(d, start.id + 1, chosen[1].mark.id);
  }

  /** Both selection loops and the checks between them. */
  method SelectSegments(dir: LogDir, ghost seen: Disk, ghost ids: Ids, opens: seq<Segment>,
                        start: Cursor, end: Option<Cursor>, env: Environment, fails: Faults)
    returns (ok: bool, chosen: seq<Segment>)
    requires Inv(seen) && Inv(dir.d) && Later(seen, dir.d) && Opened(seen, opens) && OpenedAs(ids, opens)
    requires Sound(seen, start) && (end.Some? ==> Sound(seen, end.value))
    modifies dir
    ensures Still(env) ==> dir.d == old(dir.d)
    ensures Inv(dir.d) && Later(seen, dir.d)
    ensures ok <==> Located(ids, start, end, fails)
    ensures ok ==> Chosen(seen, ids, start, end, chosen)
  {
    chosen := [];
    var first, files := LocateStart(dir, seen, opens, start, env, fails);
    if first < 0 {
      StartNotLocated(ids, opens, start, end, fails);
      return false, chosen;
    }
    PlaceOf(ids, opens, first);
    var last := |files| - 1;
    if end.Some? {
      ghost var located := files;
      last, files := LocateEnd(dir, seen, files, first, end.value, env, fails);
      assert forall i :: 0 <= i < |opens| ==> located[i].mark == opens[i].mark;
      if last < first || files[last].end < files[last].start {
        if last < first {
          EndNotLocated(ids, opens, first, start, end.value, fails);
        } else {
          PlaceOf(ids, opens, last);
        }
        return false, chosen;
      }
      PlaceOf(ids, opens, last);
    }
    if last > first && files[first].mark.id == files[last].mark.id { return false, chosen; }
    ok, chosen := true, files[first..last + 1];
    ChosenByIndex(seen, ids, opens, first, last, start, end, files);
  }

  lemma StartNotLocated(ids: Ids, opens: seq<Segment>, start: Cursor, end: Option<Cursor>, fails: Faults)
    requires OpenedAs(ids, opens)
    requires forall i :: 0 <= i < |opens| && opens[i].mark.id == start.id ==> fails(SeekStart(i))
    ensures !Located(ids, start, end, fails)
  {
    if HasId(ids, start.id) { PlaceFound(ids, opens, start.id); }
  }

  lemma EndNotLocated(ids: Ids, opens: seq<Segment>, first: nat, start: Cursor, end: Cursor, fails: Faults)
    requires OpenedAs(ids, opens) && first < |opens| <= 2 && opens[first].mark.id == start.id
    requires |opens| == 2 ==> opens[0].mark.id < opens[1].mark.id
    requires forall i :: first <= i < |opens| && opens[i].mark.id == end.id ==> fails(SeekEnd(i))
    ensures !Located(ids, start, Some(end), fails)
  {
    if HasId(ids, end.id) && start.id <= end.id { PlaceFound(ids, opens, end.id); }
  }

  lemma ChosenByIndex(seen: Disk, ids: Ids, opens: seq<Segment>, first: nat, last: nat,
                      start: Cursor, end: Option<Cursor>, files: seq<Segment>)
    requires Opened(seen, opens) && OpenedAs(ids, opens) && Sound(seen, start) && (end.Some? ==> Sound(seen, end.value))
    requires first <= last < |opens| && opens[first].mark.id == start.id && start.offset <= opens[first].end
    requires
      var located := opens[first := opens[first].(start := start.offset)];
      if end.Some? then opens[last].mark.id == end.value.id && files == located[last := located[last].(end := end.value.offset)]
      else files == located && last == |opens| - 1
    requires files[last].start <= files[last].end
    ensures Chosen(seen, ids, start, end, files[first..last + 1])
  {
    assert Measured(seen, opens[first]) && Measured(seen, opens[last]);
    var chosen := files[first..last + 1];
    forall i | 0 <= i < |chosen| ensures SegmentIn(seen, chosen[i]) && Sound(seen, chosen[i].mark) {
      assert SegmentIn(seen, opens[first + i]) && Measured(seen, opens[first + i]);
    }
  }

  /** Copying, the final checks and the trimming. */
  method ReadSegments(dir: LogDir, ghost seen: Disk, ghost ids: Ids, chosen: seq<Segment>,
                      start: Cursor, end: Option<Cursor>, max: nat, env: Environment, fails: Faults)
    returns (ok: bool, data: seq<byte>, truncated: bool)
    requires Inv(seen) && Inv(dir.d) && Later(seen, dir.d) && Sound(seen, start)
    requires end.Some? ==> Sound(seen, end.value)
    requires Chosen(seen, ids, start, end, chosen)
    modifies dir
    ensures Still(env) ==> dir.d == old(dir.d)
    ensures Inv(dir.d) && Later(seen, dir.d)
    ensures !ok <==> CopyFault(Sizes(chosen), CutOf(Sum(Sizes(chosen)), max), fails)
                     || RecheckFault(|chosen|, end.Some?, fails)
    ensures ok ==> data == Window(SpanOf(seen, chosen), StartsLine(start), max)
    ensures ok ==> truncated == (|SpanOf(seen, chosen)| > max)
  {
    var out, dropFirst;
    data := [];
    ok, out, truncated, dropFirst := CopySegments(dir, seen, chosen, StartsLine(start), max, env, fails);
    if !ok { return; }
    ok := RecheckAll(dir, seen, chosen, start, end, env, fails);
    data := KeepLines(out, dropFirst);
  }

  /** readSMSSpanOnce: the result is the one that the specification allows. */
  method ReadSpanOnce(dir: LogDir, start: Cursor, end: Option<Cursor>, max: nat, env: Environment, fails: Faults)
    returns (r: Attempt, ghost cut: Cut)
    requires Inv(dir.d) && Sound(dir.d, start) && (end.Some? ==> Sound(dir.d, end.value))
    modifies dir
    ensures Still(env) ==> dir.d == old(dir.d)
    ensures Inv(dir.d) && Later(old(dir.d), dir.d)
    ensures Outcome(old(dir.d), env, fails, start, end, max, r, cut)
    ensures r.Ok? ==> Later(AfterOpens(old(dir.d), env), dir.d)
    ensures r.Ok? ==> Accepted(dir.d, start, end, max, cut, r.data, r.truncated)
  {
    ghost var before := dir.d;
    cut := Cut(0, 0, 0);
    var ok, opens := OpenFiles(dir, env, fails);
    if !ok { return Failed(Io), cut; }
    ghost var seen, ids := dir.d, OpenIds(before, env);
    LaterReflexive(seen);
    SoundStable(before, seen, start);
    if end.Some? { SoundStable(before, seen, end.value); }
    var chosen;
    ok, chosen := SelectSegments(dir, seen, ids, opens, start, end, env, fails);
    LaterTransitive(before, seen, dir.d);
    if !ok { return Failed(Boundary), cut; }
    SpanInStream(seen, ids, start, end, chosen);
    ChosenSizes(seen, ids, start, end, chosen);
    cut := CutFrom(seen, ids, start, end);
    var data, truncated;
    ok, data, truncated := ReadSegments(dir, seen, ids, chosen, start, end, max, env, fails);
    LaterTransitive(before, seen, dir.d);
    if !ok { return Failed(Boundary), cut; }
    AcceptedStable(seen, dir.d, start, end, max, cut, data, truncated);
    r := Ok(data, truncated);
  }
}
