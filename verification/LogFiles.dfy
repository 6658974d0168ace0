/**
 * The directory that holds one log path and its ".1" backup, and the collector
 * that appends to it (internal/logsink).
 *
 * Files are listed in creation order. The index of a file is its identity, which
 * is never reused; `current` and `backup` say which file each of the two names
 * denotes. The concatenation of all files, `Stream`, is everything ever logged.
 */
module LogFiles {
  import opened Common

  datatype Disk = Disk(files: seq<seq<byte>>, current: Option<nat>, backup: Option<nat>)

  /** The system calls with which the log directory changes. */
  datatype Step =
    | RemoveBackup
    | RenameToBackup
    | Create
    | Append(data: seq<byte>)

  /** Only the newest file is ever written to, and the two names are neighbours. */
  ghost predicate Inv(d: Disk) {
    && (d.current.Some? ==> d.current.value + 1 == |d.files|)
    && (d.backup.Some? ==> d.backup.value + (if d.current.Some? then 2 else 1) == |d.files|)
  }

  function Apply(d: Disk, s: Step): Disk
    requires Inv(d)
  {
    match s
    case RemoveBackup => d.(backup := None)
    case RenameToBackup => if d.current.None? then d else d.(current := None, backup := d.current)
    case Create => if d.current.Some? then d else Disk(d.files + [[]], Some(|d.files|), d.backup)
    case Append(data) =>
      if d.current.None? then d
      else d.(files := d.files[d.current.value := d.files[d.current.value] + data])
  }

  function Run(d: Disk, steps: seq<Step>): (r: Disk)
    requires Inv(d)
    ensures Inv(r)
    decreases |steps|
  {
    if steps == [] then d else Run(Apply(d, steps[0]), steps[1..])
  }

  lemma {:induction false} RunConcat(d: Disk, first: seq<Step>, second: seq<Step>)
    requires Inv(d)
    ensures Run(d, first + second) == Run(Run(d, first), second)
    decreases |first|
  {
    if first == [] {
      assert first + second == second;
    } else {
      assert (first + second)[1..] == first[1..] + second;
      RunConcat(Apply(d, first[0]), first[1..], second);
    }
  }

  // ---- What every run keeps ------------------------------------------------

  /** A file that no longer bears the active name is never written again. */
  predicate Frozen(d: Disk, id: nat) {
    id < |d.files| && d.current != Some(id)
  }

  /** `e` is a possible later state of `d`. */
  ghost predicate Later(d: Disk, e: Disk)
    requires Inv(d)
  {
    exists steps: seq<Step> :: Run(d, steps) == e
  }

  lemma LaterTransitive(d: Disk, e: Disk, f: Disk)
    requires Inv(d) && Inv(e) && Later(d, e) && Later(e, f)
    ensures Later(d, f)
  {
    var first: seq<Step> :| Run(d, first) == e;
    var second: seq<Step> :| Run(e, second) == f;
    RunConcat(d, first, second);
  }

  lemma LaterReflexive(d: Disk)
    requires Inv(d)
    ensures Later(d, d)
  {
    assert Run(d, []) == d;
  }

  /** Files grow only at their end, and frozen ones not at all. */
  ghost predicate Grown(d: Disk, e: Disk) {
    && |d.files| <= |e.files|
    && (forall i :: 0 <= i < |d.files| ==> d.files[i] <= e.files[i])
    && (forall i: nat :: Frozen(d, i) ==> Frozen(e, i) && e.files[i] == d.files[i])
  }

  lemma {:induction false} RunGrown(d: Disk, steps: seq<Step>)
    requires Inv(d)
    ensures Grown(d, Run(d, steps))
    decreases |steps|
  {
    if steps != [] {
      assert Grown(d, Apply(d, steps[0]));
      RunGrown(Apply(d, steps[0]), steps[1..]);
    }
  }

  lemma LaterGrown(d: Disk, e: Disk)
    requires Inv(d) && Later(d, e)
    ensures Inv(e) && Grown(d, e)
  {
    var steps: seq<Step> :| Run(d, steps) == e;
    RunGrown(d, steps);
  }

  /** One file: its identity survives, its contents keep their prefix. */
  lemma LaterFile(d: Disk, e: Disk, id: nat)
    requires Inv(d) && Later(d, e) && id < |d.files|
    ensures |d.files| <= |e.files| && d.files[id] <= e.files[id]
    ensures Frozen(d, id) ==> Frozen(e, id) && e.files[id] == d.files[id]
  {
    LaterGrown(d, e);
  }

  // ---- Renames ------------------------------------------------------------------------------

  lemma {:induction false} RunWithoutRename(d: Disk, steps: seq<Step>)
    requires Inv(d) && RenameToBackup !in steps
    ensures d.current.Some? ==> Run(d, steps).current == d.current && |Run(d, steps).files| == |d.files|
    ensures d.current.None? && Run(d, steps).current.None? ==> Run(d, steps).files == d.files
    ensures d.current.None? && Run(d, steps).current.Some? ==> |Run(d, steps).files| == |d.files| + 1
    ensures RemoveBackup !in steps ==> Run(d, steps).backup == d.backup
    decreases |steps|
  {
    if steps != [] {
      RunWithoutRename(Apply(d, steps[0]), steps[1..]);
    }
  }

  /** A file that has given up the active name does not get it back. */
  lemma {:induction false} NeverCurrentAgain(d: Disk, steps: seq<Step>, id: nat)
    requires Inv(d) && Frozen(d, id)
    ensures Run(d, steps).current != Some(id)
    decreases |steps|
  {
    if steps != [] { NeverCurrentAgain(Apply(d, steps[0]), steps[1..], id); }
  }

  lemma {:induction false} RunWithRename(d: Disk, steps: seq<Step>, id: nat)
    requires Inv(d) && RenameToBackup in steps && d.current == Some(id)
    ensures Run(d, steps).current != Some(id)
    decreases |steps|
  {
    var e := Apply(d, steps[0]);
    if steps[0] == RenameToBackup {
      NeverCurrentAgain(e, steps[1..], id);
    } else {
      assert steps == [steps[0]] + steps[1..];
      RunWithRename(e, steps[1..], id);
    }
  }

  // ---- The stream of everything logged -------------------------------------

  ghost function Stream(d: Disk): seq<byte> { Flatten(d.files) }

  /** The position in the stream at which a file begins. */
  ghost function Base(d: Disk, id: nat): nat
    requires id <= |d.files|
  {
    |Flatten(d.files[..id])|
  }

  /** A file occupies the stream from its base on, and its successor follows at once. */
  lemma FileInStream(d: Disk, id: nat)
    requires id < |d.files|
    ensures Base(d, id) + |d.files[id]| == Base(d, id + 1) <= |Stream(d)|
    ensures Stream(d)[Base(d, id)..Base(d, id + 1)] == d.files[id]
    ensures id + 1 == |d.files| ==> Base(d, id + 1) == |Stream(d)|
  {
    var upTo := d.files[..id + 1];
    assert upTo[..id] == d.files[..id] && upTo[id] == d.files[id];
    assert d.files == upTo + d.files[id + 1..];
    FlattenConcat(upTo, d.files[id + 1..]);
    if id + 1 == |d.files| {
      assert upTo == d.files;
    }
  }

  /** Files created later lie later in the stream. */
  lemma {:induction false} BaseOrder(d: Disk, i: nat, j: nat)
    requires i <= j <= |d.files|
    ensures Base(d, i) <= Base(d, j) <= |Stream(d)|
    decreases j - i
  {
    assert d.files[..i] + d.files[i..] == d.files;
    FlattenConcat(d.files[..i], d.files[i..]);
    if i < j {
      FileInStream(d, i);
      BaseOrder(d, i + 1, j);
    }
  }

  /** The stream only grows at its end and the base of a file never moves. */
  lemma StreamGrows(d: Disk, e: Disk)
    requires Inv(d) && Later(d, e)
    ensures Stream(d) <= Stream(e) && |d.files| <= |e.files|
    ensures forall i :: 0 <= i < |d.files| ==> Base(d, i) == Base(e, i)
  {
    LaterGrown(d, e);
    forall i | 0 <= i < |d.files| ensures Base(d, i) == Base(e, i) {
      assert forall k :: 0 <= k < i ==> Frozen(d, k);
      assert d.files[..i] == e.files[..i];
    }
    if d.files != [] {
      var last := |d.files| - 1;
      assert forall k :: 0 <= k < last ==> Frozen(d, k);
      assert d.files[..last] == e.files[..last];
      assert e.files[..last + 1][..last] == e.files[..last];
      assert Flatten(d.files) <= Flatten(e.files[..last + 1]);
      assert e.files == e.files[..last + 1] + e.files[last + 1..];
      FlattenConcat(e.files[..last + 1], e.files[last + 1..]);
    }
  }

  // ---- The collector ---------------------------------------------------------

  /** The calls of appendLog that can fail. */
  datatype AppendPoint = Lstat | Remove | Rename | OpenFile | Chmod | Write | CloseFile

  function Named(d: Disk, name: Option<nat>): seq<byte>
    requires name.Some? ==> name.value < |d.files|
  {
    if name.None? then [] else d.files[name.value]
  }

  /** The retained bytes: the backup followed by the active file. */
  function Kept(d: Disk): seq<byte>
    requires Inv(d)
  {
    Named(d, d.backup) + Named(d, d.current)
  }

  predicate NeedsRotation(d: Disk, data: seq<byte>, limit: nat)
    requires Inv(d)
  {
    d.current.Some? && |d.files[d.current.value]| + |data| > limit
  }

  /** The calls of an appendLog that meets no error. */
  function AppendSteps(d: Disk, data: seq<byte>, limit: nat): seq<Step>
    requires Inv(d)
  {
    (if NeedsRotation(d, data, limit) then [RemoveBackup, RenameToBackup] else []) + [Create, Append(data)]
  }

  /** Their effect: a rotation makes the active file the backup and starts a new one. */
  function AfterAppend(d: Disk, data: seq<byte>, limit: nat): (e: Disk)
    requires Inv(d)
    ensures Inv(e)
  {
    if NeedsRotation(d, data, limit) then Disk(d.files + [data], Some(|d.files|), d.current)
    else if d.current.None? then Disk(d.files + [data], Some(|d.files|), d.backup)
    else d.(files := d.files[d.current.value := d.files[d.current.value] + data])
  }

  lemma AppendStepsEffect(d: Disk, data: seq<byte>, limit: nat)
    requires Inv(d)
    ensures Run(d, AppendSteps(d, data, limit)) == AfterAppend(d, data, limit)
  {
    var last := [Create, Append(data)];
    var mid := d;
    if NeedsRotation(d, data, limit) {
      RunConcat(d, [RemoveBackup, RenameToBackup], last);
      mid := Apply(Apply(d, RemoveBackup), RenameToBackup);
      assert [RemoveBackup, RenameToBackup][1..] == [RenameToBackup];
      assert Run(Apply(d, RemoveBackup), [RenameToBackup]) == Run(mid, [RenameToBackup][1..]);
    } else {
      assert [] + last == last;
    }
    var made := Apply(mid, Create);
    assert last[1..] == [Append(data)];
    assert Run(made, [Append(data)]) == Run(Apply(made, Append(data)), [Append(data)][1..]);
    assert [] + data == data;
    assert Run(d, AppendSteps(d, data, limit)).files == AfterAppend(d, data, limit).files;
  }

  /** Whole runs of error-free appends. */
  function AppendAll(d: Disk, records: seq<seq<byte>>, limit: nat): (r: Disk)
    requires Inv(d)
    ensures Inv(r)
    decreases |records|
  {
    if records == [] then d
    else AppendAll(AfterAppend(d, records[0], limit), records[1..], limit)
  }

  class LogDir {
    var d: Disk

    constructor (initial: Disk)
      ensures d == initial
    {
      d := initial;
    }

    /** Other parties act on the directory. */
    method Advance(ghost since: Disk, steps: seq<Step>)
      requires Inv(d) && Inv(since) && Later(since, d)
      modifies this
      ensures d == Run(old(d), steps) && Inv(d)
      ensures Later(since, d)
    {
      LaterTransitive(since, d, Run(d, steps));
      d := Run(d, steps);
    }

    /**
     * One record is appended. Every call may fail, and a failing write may have
     * stored any prefix. `steps` lists the calls that took effect: whatever goes
     * wrong, the directory changes only as `Step` allows.
     */
    method AppendLog(data: seq<byte>, limit: nat, fails: AppendPoint -> bool, short: nat)
      returns (ok: bool, ghost steps: seq<Step>)
      requires Inv(d)
      modifies this
      ensures d == Run(old(d), steps) && Inv(d) && Later(old(d), d)
      ensures |data| > limit ==> !ok && d == old(d)
      ensures |data| <= limit && (forall p :: !fails(p)) ==> ok
      ensures ok ==> |data| <= limit && d == AfterAppend(old(d), data, limit)
    {
      steps := [];
      ok := false;
      if |data| > limit { return; }
      if fails(Lstat) { return; }
      if NeedsRotation(d, data, limit) {
        if fails(Remove) { return; }
        RunConcat(d, steps, [RemoveBackup]);
        steps := steps + [RemoveBackup];
        d := Apply(d, RemoveBackup);
        if fails(Rename) { return; }
        RunConcat(old(d), steps, [RenameToBackup]);
        steps := steps + [RenameToBackup];
        d := Apply(d, RenameToBackup);
      }
      if fails(OpenFile) { return; }
      RunConcat(old(d), steps, [Create]);
      steps := steps + [Create];
      d := Apply(d, Create);
      if fails(Chmod) { return; }
      var stored := if fails(Write) then data[..Min(short, |data|)] else data;
      RunConcat(old(d), steps, [Append(stored)]);
      steps := steps + [Append(stored)];
      d := Apply(d, Append(stored));
      ok := !fails(Write) && !fails(CloseFile);
      if ok {
        assert steps == AppendSteps(old(d), data, limit);
        AppendStepsEffect(old(d), data, limit);
      }
    }
  }
}
