/**
 * Bounded retention of process output (internal/logsink/writer.go) on top of
 * appendLog: a current file, one backup, and nothing in between is ever lost.
 */
module LogRetention {
  import opened Common
  import opened LogFiles

  const MAX_LOG_BYTES: nat := 16 * 1024 * 1024

  /** capExistingLog: a log of an older, unbounded writer keeps its last bytes. */
  function CapTail(content: seq<byte>): seq<byte> {
    if |content| <= MAX_LOG_BYTES then content else content[|content| - MAX_LOG_BYTES..]
  }

  /** The directory as NewWriter finds it, both files capped. */
  function Adopted(existing: Option<seq<byte>>, backup: Option<seq<byte>>): Disk {
    match (backup, existing)
    case (None, None) => Disk([], None, None)
    case (None, Some(c)) => Disk([CapTail(c)], Some(0), None)
    case (Some(b), None) => Disk([CapTail(b)], None, Some(0))
    case (Some(b), Some(c)) => Disk([CapTail(b), CapTail(c)], Some(1), Some(0))
  }

  lemma AdoptedRetains(existing: Option<seq<byte>>, backup: Option<seq<byte>>)
    ensures Retains(Adopted(existing, backup), Kept(Adopted(existing, backup)), MAX_LOG_BYTES)
    ensures Kept(Adopted(existing, backup)) == (if backup.Some? then CapTail(backup.value) else [])
                                               + (if existing.Some? then CapTail(existing.value) else [])
  {
  }

  /** How Writer.Write cuts its argument. */
  function Chunks(data: seq<byte>): (r: seq<seq<byte>>)
    ensures Flatten(r) == data
    ensures forall i :: 0 <= i < |r| ==> 0 < |r[i]| <= 16777216
    ensures forall i :: 0 <= i < |r| - 1 ==> |r[i]| == 16777216
    decreases |data|
  {
    if data == [] then []
    else
      var n := Min(|data|, MAX_LOG_BYTES);
      var rest := Chunks(data[n..]);
      FlattenConcat([data[..n]], rest);
      FlattenOne(data[..n]);
      [data[..n]] + rest
  }

  /** The directory that NewWriter leaves: its first, empty append creates the file. */
  function Opened(existing: Option<seq<byte>>, backup: Option<seq<byte>>): (d: Disk)
    ensures Inv(d)
  {
    AfterAppend(Adopted(existing, backup), [], MAX_LOG_BYTES)
  }

  lemma OpenedRetains(existing: Option<seq<byte>>, backup: Option<seq<byte>>)
    ensures Retains(Opened(existing, backup), Kept(Opened(existing, backup)), MAX_LOG_BYTES)
    ensures Kept(Opened(existing, backup)) == Kept(Adopted(existing, backup))
  {
    AdoptedRetains(existing, backup);
    AppendEffect(Adopted(existing, backup), [], MAX_LOG_BYTES);
  }

  /** The last bytes, as many as fit. */
  ghost predicate IsCapped(kept: seq<byte>, whole: seq<byte>) {
    |kept| == Min(|whole|, 16777216) && kept == whole[|whole| - |kept|..]
  }

  /** What is behind the two names after adoption. */
  lemma OpenedNames(existing: Option<seq<byte>>, backup: Option<seq<byte>>)
    ensures
      var d := Opened(existing, backup);
      && d.current.Some? && IsCapped(Named(d, d.current), if existing.Some? then existing.value else [])
      && (d.backup.Some? <==> backup.Some?)
      && (backup.Some? ==> IsCapped(Named(d, d.backup), backup.value))
  {
    AdoptedRetains(existing, backup);
    AppendEffect(Adopted(existing, backup), [], MAX_LOG_BYTES);
    Capped(if existing.Some? then existing.value else []);
    Capped(if backup.Some? then backup.value else []);
    assert Named(Adopted(existing, backup), Adopted(existing, backup).current) + []
           == Named(Adopted(existing, backup), Adopted(existing, backup).current);
  }

  lemma Capped(content: seq<byte>)
    ensures IsCapped(CapTail(content), content)
  {
  }

  /** One more chunk of `data` has been stored. */
  lemma ChunkStored(d: Disk, data: seq<byte>, rest: seq<byte>, k: nat)
    requires Inv(d) && rest != [] && k <= |Chunks(data)| && Chunks(data)[k..] == Chunks(rest)
    ensures
      var n, chunks := Min(|rest|, MAX_LOG_BYTES), Chunks(data);
      && k < |chunks| && chunks[k] == rest[..n] && chunks[k + 1..] == Chunks(rest[n..])
      && AppendAll(d, chunks[..k + 1], MAX_LOG_BYTES) == AfterAppend(AppendAll(d, chunks[..k], MAX_LOG_BYTES), rest[..n], MAX_LOG_BYTES)
      && |Flatten(chunks[..k + 1])| == |Flatten(chunks[..k])| + n
  {
    var n, chunks := Min(|rest|, MAX_LOG_BYTES), Chunks(data);
    assert chunks[k..][0] == chunks[k] && chunks[k..][1..] == chunks[k + 1..];
    PrefixStep(chunks, k);
    AppendAllMore(d, chunks[..k], chunks[k], MAX_LOG_BYTES);
    FlattenConcat(chunks[..k], [chunks[k]]);
    FlattenOne(chunks[k]);
  }

  lemma {:induction false} AppendAllMore(d: Disk, records: seq<seq<byte>>, last: seq<byte>, limit: nat)
    requires Inv(d)
    ensures AppendAll(d, records + [last], limit) == AfterAppend(AppendAll(d, records, limit), last, limit)
    decreases |records|
  {
    if records == [] {
      assert records + [last] == [last];
      assert AppendAll(AfterAppend(d, last, limit), [last][1..], limit) == AfterAppend(d, last, limit);
    } else {
      assert (records + [last])[1..] == records[1..] + [last];
      AppendAllMore(AfterAppend(d, records[0], limit), records[1..], last, limit);
    }
  }

  class Writer {
    const dir: LogDir
    var closed: bool

    /** NewWriter, on a directory without errors. */
    constructor (existing: Option<seq<byte>>, backup: Option<seq<byte>>)
      ensures fresh(dir) && !closed && dir.d == Opened(existing, backup)
      ensures dir.d.current.Some? && IsCapped(Named(dir.d, dir.d.current), if existing.Some? then existing.value else [])
      ensures dir.d.backup.Some? <==> backup.Some?
      ensures backup.Some? ==> IsCapped(Named(dir.d, dir.d.backup), backup.value)
      ensures Retains(dir.d, Kept(dir.d), MAX_LOG_BYTES)
    {
      var found := Adopted(existing, backup);
      dir := new LogDir(found);
      closed := false;
      new;
      var none: AppendPoint -> bool := p => false;
      var ok, steps := dir.AppendLog([], MAX_LOG_BYTES, none, 0);
      OpenedNames(existing, backup);
      OpenedRetains(existing, backup);
    }

    /** One turn of Writer.Write's loop: the next chunk of `data`. */
    method WriteChunk(rest: seq<byte>, fails: AppendPoint -> bool, short: nat, ghost data: seq<byte>, ghost k: nat, ghost d0: Disk)
      returns (n: nat, done: bool)
      requires Inv(dir.d) && Inv(d0) && Later(d0, dir.d) && rest != [] && k <= |Chunks(data)| && Chunks(data)[k..] == Chunks(rest)
      requires dir.d == AppendAll(d0, Chunks(data)[..k], MAX_LOG_BYTES)
      modifies dir
      ensures Inv(dir.d) && Later(old(dir.d), dir.d) && Later(d0, dir.d)
      ensures (forall p :: !fails(p)) ==> done
      ensures n == Min(|rest|, MAX_LOG_BYTES)
      ensures done ==> k < |Chunks(data)| && Chunks(data)[k + 1..] == Chunks(rest[n..])
                       && dir.d == AppendAll(d0, Chunks(data)[..k + 1], MAX_LOG_BYTES)
                       && |Flatten(Chunks(data)[..k + 1])| == |Flatten(Chunks(data)[..k])| + n
    {
      n := Min(|rest|, MAX_LOG_BYTES);
      ghost var steps;
      done, steps := dir.AppendLog(rest[..n], MAX_LOG_BYTES, fails, short);
      LaterTransitive(d0, old(dir.d), dir.d);
      if done { ChunkStored(d0, data, rest, k); }
    }

    /** Writer.Write; `fails(k, p)` says which calls fail while chunk `k` is appended. */
    method Write(data: seq<byte>, fails: (nat, AppendPoint) -> bool, short: nat)
      returns (written: nat, ok: bool, ghost stored: nat)
      requires Inv(dir.d)
      modifies dir
      ensures Inv(dir.d) && Later(old(dir.d), dir.d)
      ensures closed ==> !ok && written == 0 && dir.d == old(dir.d)
      ensures ok ==> written == |data| && dir.d == AppendAll(old(dir.d), Chunks(data), MAX_LOG_BYTES)
      ensures !closed && (forall k, p :: !fails(k, p)) ==> ok
      ensures written <= |data| && stored <= |Chunks(data)| && written == |Flatten(Chunks(data)[..stored])|
      ensures ok ==> stored == |Chunks(data)|
      ensures Later(AppendAll(old(dir.d), Chunks(data)[..stored], MAX_LOG_BYTES), dir.d)
    {
      LaterReflexive(dir.d);
      written, stored := 0, 0;
      assert Chunks(data)[..0] == [];
      if closed { return 0, false, 0; }
      var rest := data;
      var k := 0;
      while |rest| > 0
        invariant written + |rest| == |data|
        invariant Inv(dir.d) && Later(old(dir.d), dir.d)
        invariant k <= |Chunks(data)| && stored == k && Chunks(data)[k..] == Chunks(rest)
        invariant written == |Flatten(Chunks(data)[..k])|
        invariant dir.d == AppendAll(old(dir.d), Chunks(data)[..k], MAX_LOG_BYTES)
        decreases |rest|
      {
        var n, done := WriteChunk(rest, p => fails(k, p), short, data, k, old(dir.d));
        if !done { return written, false, k; }
        written := written + n;
        rest := rest[n..];
        k := k + 1;
        stored := k;
      }
      assert Chunks(data)[..k] == Chunks(data);
      LaterReflexive(dir.d);
      ok := true;
    }

    method Close()
      modifies this
      ensures closed
    {
      closed := true;
    }
  }

  // ---- What is retained --------------------------------------------------------

  predicate IsSuffix(a: seq<byte>, b: seq<byte>) {
    |a| <= |b| && a == b[|b| - |a|..]
  }

  /**
   * Backup and active file, both within the limit, end the history; they are
   * all of it or more than one full file.
   */
  ghost predicate Retained(backup: seq<byte>, current: seq<byte>, history: seq<byte>, limit: nat) {
    && |backup| <= limit && |current| <= limit
    && IsSuffix(backup + current, history)
    && (backup + current == history || |backup| + |current| > limit)
  }

  ghost predicate Retains(d: Disk, history: seq<byte>, limit: nat) {
    Inv(d) && Retained(Named(d, d.backup), Named(d, d.current), history, limit)
  }

  /** The effect of one error-free append on the two names. */
  lemma AppendEffect(d: Disk, data: seq<byte>, limit: nat)
    requires Inv(d)
    ensures
      var e := AfterAppend(d, data, limit);
      if NeedsRotation(d, data, limit) then Named(e, e.backup) == Named(d, d.current) && Named(e, e.current) == data
      else Named(e, e.backup) == Named(d, d.backup) && Named(e, e.current) == Named(d, d.current) + data
  {
    assert [] + data == data;
  }

  lemma AppendRetains(d: Disk, history: seq<byte>, data: seq<byte>, limit: nat)
    requires Retains(d, history, limit) && |data| <= limit
    ensures Retains(AfterAppend(d, data, limit), history + data, limit)
  {
    AppendEffect(d, data, limit);
    if NeedsRotation(d, data, limit) {
      RotateRetained(Named(d, d.backup), Named(d, d.current), history, data, limit);
    } else {
      GrowRetained(Named(d, d.backup), Named(d, d.current), history, data, limit);
    }
  }

  lemma RotateRetained(b: seq<byte>, c: seq<byte>, history: seq<byte>, data: seq<byte>, limit: nat)
    requires Retained(b, c, history, limit) && |data| <= limit < |c| + |data|
    ensures Retained(c, data, history + data, limit)
  {
    SuffixPart(b, c, history);
    SuffixGrows(c, history, data);
  }

  lemma GrowRetained(b: seq<byte>, c: seq<byte>, history: seq<byte>, data: seq<byte>, limit: nat)
    requires Retained(b, c, history, limit) && |c| + |data| <= limit
    ensures Retained(b, c + data, history + data, limit)
  {
    assert b + c + data == b + (c + data);
    SuffixGrows(b + c, history, data);
  }

  lemma SuffixPart(x: seq<byte>, y: seq<byte>, h: seq<byte>)
    requires IsSuffix(x + y, h)
    ensures IsSuffix(y, h)
  {
    assert y == (x + y)[|x|..];
  }

  lemma SuffixGrows(a: seq<byte>, h: seq<byte>, data: seq<byte>)
    requires IsSuffix(a, h)
    ensures IsSuffix(a + data, h + data)
  {
  }

  /**
   * After any number of error-free appends: both files within the limit, and
   * backup plus current is a contiguous end of everything since adoption.
   */
  lemma {:induction false} RunRetains(d: Disk, history: seq<byte>, records: seq<seq<byte>>, limit: nat)
    requires Retains(d, history, limit)
    requires forall i :: 0 <= i < |records| ==> |records[i]| <= limit
    ensures Retains(AppendAll(d, records, limit), history + Flatten(records), limit)
    decreases |records|
  {
    if records == [] {
      assert history + Flatten(records) == history;
    } else {
      var rest, h := records[1..], history + records[0];
      AppendRetains(d, history, records[0], limit);
      RunRetains(AfterAppend(d, records[0], limit), h, rest, limit);
      FlattenHead(records);
      Assoc(history, records[0], Flatten(rest));
    }
  }

  /** The directory after a list of error-free Write calls. */
  function AfterWrites(d: Disk, writes: seq<seq<byte>>): (e: Disk)
    requires Inv(d)
    ensures Inv(e)
    decreases |writes|
  {
    if writes == [] then d
    else AppendAll(AfterWrites(d, writes[..|writes| - 1]), Chunks(writes[|writes| - 1]), MAX_LOG_BYTES)
  }

  /** Bounded retention for every list of Write calls of any size, from what NewWriter makes of any pair of logs. */
  lemma {:induction false} WritesRetain(existing: Option<seq<byte>>, backup: Option<seq<byte>>, writes: seq<seq<byte>>)
    ensures Retains(AfterWrites(Opened(existing, backup), writes), Kept(Opened(existing, backup)) + Flatten(writes), MAX_LOG_BYTES)
    ensures Kept(Opened(existing, backup)) == Kept(Adopted(existing, backup))
    decreases |writes|
  {
    var d := Opened(existing, backup);
    OpenedRetains(existing, backup);
    if writes == [] {
      assert Kept(d) + Flatten(writes) == Kept(d);
    } else {
      var init, last := writes[..|writes| - 1], writes[|writes| - 1];
      var h := Kept(d) + Flatten(init);
      WritesRetain(existing, backup, init);
      RunRetains(AfterWrites(d, init), h, Chunks(last), MAX_LOG_BYTES);
      Assoc(Kept(d), Flatten(init), last);
    }
  }
}
