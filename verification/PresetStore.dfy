/**
 * The preset store itself (internal/gsm/presets.go). Every operation takes one
 * step of the state machine, whichever of its system calls fail.
 */
module PresetStore {
  import opened Common
  import opened Strings
  import opened PresetFile
  import opened PresetRuns

  /** The calls of persist that can fail. */
  datatype PersistPoint =
    Encode | Mkdir | CreateTemp | Chmod | WriteTemp | SyncTemp | CloseTemp | Rename(attempt: nat) | SyncDirectory

  /** The calls of load that can fail, besides those of persist. */
  datatype LoadPoint = Open | Stat | Read | CloseFile

  datatype Result = Ok | Invalid | Unavailable | Exists | NotFound

  /** Everything works, though a rename may need some of its six attempts. */
  ghost predicate Smooth(fails: PersistPoint -> bool) {
    && (forall p: PersistPoint :: !p.Rename? ==> !fails(p))
    && (exists a :: 0 <= a < 6 && !fails(Rename(a)))
  }

  ghost predicate Fits(codec: Codec, items: Items) {
    forall bytes :: IsImage(codec, items, bytes) ==> |bytes| <= MAX_FILE_BYTES
  }

  /** Nothing stands in the way of loading the file. */
  ghost predicate Loads(codec: Codec, file: File, loadFails: LoadPoint -> bool, fails: PersistPoint -> bool) {
    var c := Parse(codec, file);
    (forall p :: !loadFails(p)) && Usable(c) && (c.V2? || (Smooth(fails) && Fits(codec, Initial(c))))
  }

  class Disk {
    var file: File
    /** What a power loss may bring back, because the directory has not been synced since. */
    ghost var older: seq<File>

    constructor (file: File)
      ensures this.file == file && older == []
    {
      this.file := file;
      older := [];
    }

    ghost function Before(): State
      reads this
    {
      State(file, older, Down)
    }
  }

  class PresetStore {
    const codec: Codec
    const disk: Disk
    var items: Items
    var poisoned: bool

    ghost function Now(): State
      reads this, disk
    {
      State(disk.file, disk.older, Up(items, poisoned))
    }

    /** The store is usable by its methods: its codec round-trips and it agrees with its file. */
    ghost predicate Valid()
      reads this, disk
    {
      Lawful(codec) && Inv(codec, Now())
    }

    /** NewPresetStore. */
    constructor (codec: Codec, disk: Disk, loadFails: LoadPoint -> bool, fails: PersistPoint -> bool)
      requires Lawful(codec)
      modifies disk
      ensures this.codec == codec && this.disk == disk && Valid()
      ensures exists readable, write :: Next(codec, old(disk.Before()), Launch(readable, write), Now())
      ensures Loads(codec, old(disk.file), loadFails, fails) ==> !poisoned
    {
      this.codec, this.disk := codec, disk;
      items, poisoned := map[], false;
      new;
      ghost var before := disk.Before();
      ghost var readable, write;
      readable, write := Load(loadFails, fails);
      assert Next(codec, before, Launch(readable, write), Now());
      StepMeans(codec, before, Launch(readable, write), Now());
    }

    /** persist's ordered list. */
    method Order(next: Items) returns (list: seq<Preset>)
      requires Keyed(next)
      ensures IsOrdered(next, list)
    {
      var ids := SortKeys(next.Keys);
      assert forall i :: 0 <= i < |ids| ==> ids[i] in Elements(ids);
      list := [];
      var i := 0;
      while i < |ids|
        invariant 0 <= i <= |ids| && |list| == i
        invariant forall k :: 0 <= k < i ==> list[k].id == ids[k] && list[k] == next[ids[k]]
      {
        list := list + [next[ids[i]]];
        i := i + 1;
      }
      assert Ids(list) == ids;
    }

    /** persist. */
    method Persist(next: Items, fails: PersistPoint -> bool) returns (r: Result, ghost write: Write)
      requires Keyed(next)
      modifies disk, this`poisoned
      ensures Written(codec, old(disk.Before()), next, write, Now())
      ensures r == Ok <==> write.Committed?
      ensures r == Ok || r == Invalid || r == Unavailable
      ensures poisoned == (old(poisoned) || write.Unsynced?)
      ensures Smooth(fails) && Fits(codec, next) ==> r == Ok
    {
      var list := Order(next);
      write := Untouched;
      if fails(Encode) { return Unavailable, write; }
      var text := codec.encode(Document(2, list));
      assert IsImage(codec, next, text + [NL]);
      if |text| + 1 > MAX_FILE_BYTES { return Invalid, write; }
      if fails(Mkdir) || fails(CreateTemp) || fails(Chmod) || fails(WriteTemp) { return Unavailable, write; }
      var temp := text + [NL];
      if fails(SyncTemp) || fails(CloseTemp) { return Unavailable, write; }
      var renamed := false;
      ghost var replaced := disk.file;
      var attempt: nat := 0;
      while attempt < 6 && !renamed
        invariant attempt <= 6
        invariant renamed ==> disk.file == Regular(temp)
        invariant !renamed ==> disk.file == old(disk.file) && forall a :: 0 <= a < attempt ==> fails(Rename(a))
        invariant poisoned == old(poisoned) && disk.older == old(disk.older)
        decreases 6 - attempt, !renamed
      {
        if fails(Rename(attempt)) {
          attempt := attempt + 1;
        } else {
          disk.file := Regular(temp);
          renamed := true;
        }
      }
      if !renamed { return Unavailable, write; }
      if fails(SyncDirectory) {
        disk.older := disk.older + [replaced];
        poisoned := true;
        return Unavailable, Unsynced;
      }
      disk.older := [];
      r, write := Ok, Committed;
    }

    /** load's check of the decoded items. */
    method Collect(list: seq<Preset>) returns (ok: bool, loaded: Items)
      ensures ok <==> ItemsOk(list)
      ensures ok ==> loaded == ToMap(list)
    {
      loaded := map[];
      var i := 0;
      while i < |list|
        invariant 0 <= i <= |list| && ItemsOk(list[..i]) && loaded == ToMap(list[..i])
      {
        CollectStep(list, i);
        if !ValidPreset(list[i]) { return false, loaded; }
        if list[i].id in loaded { return false, loaded; }
        loaded := loaded[list[i].id := list[i]];
        i := i + 1;
      }
      assert list[..i] == list;
      ok := true;
    }

    /** load's migration loop. */
    method AddMissing(defaults: seq<Preset>, loaded: Items) returns (next: Items)
      requires Distinct(defaults)
      ensures next == ToMap(defaults) + loaded
    {
      next := loaded;
      var i := 0;
      while i < |defaults|
        invariant 0 <= i <= |defaults| && next == ToMap(defaults[..i]) + loaded
      {
        ToMapNext(defaults, i);
        if defaults[i].id !in next { next := next[defaults[i].id := defaults[i]]; }
        i := i + 1;
      }
      assert defaults[..i] == defaults;
    }

    /** load, whose failure poisons the store. */
    method Load(loadFails: LoadPoint -> bool, fails: PersistPoint -> bool)
      returns (ghost readable: bool, ghost write: Write)
      requires items == map[] && !poisoned
      modifies this, disk
      ensures Launched(codec, old(disk.Before()), readable, write, Now())
      ensures Loads(codec, old(disk.file), loadFails, fails) ==> !poisoned
    {
      write := Untouched;
      if loadFails(Open) {
        poisoned := true;
        return false, write;
      }
      if disk.file.Missing? {
        readable := true;
        InitialWellFormed(codec, disk.file) by { DefaultsAreValid(DefaultPresets()); }
        write := Install(ToMap(DefaultPresets()), fails);
        return;
      }
      readable := !(loadFails(Stat) || loadFails(Read) || loadFails(CloseFile));
      if loadFails(Stat) || disk.file.Special? || |disk.file.bytes| > MAX_FILE_BYTES
         || loadFails(Read) || loadFails(CloseFile) {
        poisoned := true;
        return;
      }
      var ok, version, loaded := Decode(disk.file.bytes);
      if !ok {
        poisoned := true;
        return;
      }
      if version == 1 {
        DefaultIds();
        var next := AddMissing(DefaultPresets(), loaded);
        if |next| > MAX_PRESETS {
          poisoned := true;
          return;
        }
        InitialWellFormed(codec, disk.file);
        write := Install(next, fails);
        return;
      }
      ParsedIsWellFormed(codec, disk.file);
      items := loaded;
    }

    /** The decoding part of load. */
    method Decode(bytes: seq<byte>) returns (ok: bool, version: int, loaded: Items)
      requires |bytes| <= MAX_FILE_BYTES
      ensures ok ==> Parse(codec, Regular(bytes)) == if version == 1 then V1(loaded) else V2(loaded)
      ensures !ok ==> Parse(codec, Regular(bytes)).Bad?
    {
      var doc := codec.decode(bytes);
      if doc.None? || (doc.value.version != 1 && doc.value.version != 2) || |doc.value.items| > MAX_PRESETS {
        return false, 0, map[];
      }
      version := doc.value.version;
      ok, loaded := Collect(doc.value.items);
    }

    /** The end of an initialization or a migration: the items count only once they are on disk. */
    method Install(next: Items, fails: PersistPoint -> bool) returns (ghost write: Write)
      requires items == map[] && !poisoned && Keyed(next)
      modifies this, disk
      ensures Written(codec, old(disk.Before()), next, write, Now())
      ensures Up(items, poisoned) == if write.Committed? then Up(next, false) else Up(map[], true)
      ensures Smooth(fails) && Fits(codec, next) ==> !poisoned
    {
      var r;
      r, write := Persist(next, fails);
      if r != Ok { poisoned := true; } else { items := next; }
    }

    /** An edit that passed its checks: memory follows the disk. */
    method Commit(next: Items, fails: PersistPoint -> bool) returns (r: Result, ghost write: Write)
      requires Keyed(next) && !poisoned
      modifies this, disk
      ensures Written(codec, old(disk.Before()), next, write, Now())
      ensures Up(items, poisoned) == match write
                                     case Untouched => Up(old(items), false)
                                     case Committed => Up(next, false)
                                     case Unsynced => Up(old(items), true)
      ensures r == Ok <==> write.Committed?
      ensures r == Ok || r == Invalid || r == Unavailable
      ensures Smooth(fails) && Fits(codec, next) ==> r == Ok
    {
      r, write := Persist(next, fails);
      if r == Ok { items := next; }
    }

    method Create(p: Preset, fails: PersistPoint -> bool) returns (r: Result, ghost write: Write)
      requires Valid()
      modifies this, disk
      ensures Valid() && Next(codec, old(Now()), Apply(PresetRuns.Create(p), write), Now())
      ensures r == Ok <==> write.Committed?
      ensures items == if r == Ok then old(items)[p.id := p] else old(items)
      ensures !ValidPreset(p) ==> r == Invalid
      ensures ValidPreset(p) && old(poisoned) ==> r == Unavailable
      ensures ValidPreset(p) && !old(poisoned) ==> (r == Exists <==> p.id in old(items))
      ensures ValidPreset(p) && !old(poisoned) && p.id !in old(items) && |old(items)| >= 256 ==> r == Invalid
      ensures ValidPreset(p) && !old(poisoned) && p.id !in old(items) && |old(items)| < 256 ==>
                Smooth(fails) && Fits(codec, old(items)[p.id := p]) ==> r == Ok
    {
      write := Untouched;
      if !ValidPreset(p) { return Invalid, write; }
      if poisoned { return Unavailable, write; }
      if p.id in items { return Exists, write; }
      if |items| >= MAX_PRESETS { return Invalid, write; }
      ghost var before := Now();
      ParsedIsWellFormed(codec, disk.file);
      EditedKeyed(items, PresetRuns.Create(p));
      r, write := Commit(items[p.id := p], fails);
      StepMeans(codec, before, Apply(PresetRuns.Create(p), write), Now());
    }

    method Update(id: string, p: Preset, fails: PersistPoint -> bool) returns (r: Result, ghost write: Write)
      requires Valid()
      modifies this, disk
      ensures Valid() && Next(codec, old(Now()), Apply(PresetRuns.Update(id, p), write), Now())
      ensures r == Ok <==> write.Committed?
      ensures items == if r == Ok then old(items)[id := p.(id := id)] else old(items)
      ensures !ValidPreset(p.(id := id)) ==> r == Invalid
      ensures ValidPreset(p.(id := id)) && old(poisoned) ==> r == Unavailable
      ensures ValidPreset(p.(id := id)) && !old(poisoned) ==> (r == NotFound <==> id !in old(items))
      ensures ValidPreset(p.(id := id)) && !old(poisoned) && id in old(items) ==>
                Smooth(fails) && Fits(codec, old(items)[id := p.(id := id)]) ==> r == Ok
    {
      write := Untouched;
      var q := p.(id := id);
      if !ValidPreset(q) { return Invalid, write; }
      if poisoned { return Unavailable, write; }
      if id !in items { return NotFound, write; }
      ghost var before := Now();
      ParsedIsWellFormed(codec, disk.file);
      EditedKeyed(items, PresetRuns.Update(id, p));
      r, write := Commit(items[id := q], fails);
      StepMeans(codec, before, Apply(PresetRuns.Update(id, p), write), Now());
    }

    method Delete(id: string, fails: PersistPoint -> bool) returns (r: Result, ghost write: Write)
      requires Valid()
      modifies this, disk
      ensures Valid() && Next(codec, old(Now()), Apply(PresetRuns.Delete(id), write), Now())
      ensures r == Ok <==> write.Committed?
      ensures items == if r == Ok then old(items) - {id} else old(items)
      ensures old(poisoned) ==> r == Unavailable
      ensures !old(poisoned) ==> (r == NotFound <==> id !in old(items))
      ensures !old(poisoned) && id in old(items) && Smooth(fails) && Fits(codec, old(items) - {id}) ==> r == Ok
    {
      write := Untouched;
      if poisoned { return Unavailable, write; }
      if id !in items { return NotFound, write; }
      ghost var before := Now();
      ParsedIsWellFormed(codec, disk.file);
      EditedKeyed(items, PresetRuns.Delete(id));
      r, write := Commit(items - {id}, fails);
      StepMeans(codec, before, Apply(PresetRuns.Delete(id), write), Now());
    }
  }

  lemma ToMapNext(list: seq<Preset>, i: nat)
    requires i < |list| && Distinct(list)
    ensures ToMap(list[..i + 1]) == ToMap(list[..i])[list[i].id := list[i]]
    ensures list[i].id !in ToMap(list[..i])
  {
    assert list[..i + 1][..i] == list[..i];
    ToMapKeys(list[..i]);
  }

  lemma CollectStep(list: seq<Preset>, i: nat)
    requires i < |list| && ItemsOk(list[..i])
    ensures ToMap(list[..i + 1]) == ToMap(list[..i])[list[i].id := list[i]]
    ensures !ValidPreset(list[i]) || list[i].id in ToMap(list[..i]) ==> !ItemsOk(list)
    ensures ValidPreset(list[i]) && list[i].id !in ToMap(list[..i]) ==> ItemsOk(list[..i + 1])
  {
    assert list[..i + 1][..i] == list[..i];
    RepeatedId(list, i);
    if list[i].id !in ToMap(list[..i]) && ValidPreset(list[i]) { StillValid(list, i); }
  }

  lemma RepeatedId(list: seq<Preset>, i: nat)
    requires i < |list| && Distinct(list[..i])
    ensures if list[i].id in ToMap(list[..i]) then !Distinct(list) else Distinct(list[..i + 1])
  {
    ToMapKeys(list[..i]);
    if list[i].id in ToMap(list[..i]) {
      var k :| 0 <= k < i && Ids(list[..i])[k] == list[i].id;
      assert list[k].id == list[i].id;
    } else {
      StillDistinct(list, i);
    }
  }

  lemma StillValid(list: seq<Preset>, i: nat)
    requires i < |list| && AllValid(list[..i]) && ValidPreset(list[i])
    ensures AllValid(list[..i + 1])
  {
    var more := list[..i + 1];
    forall k | 0 <= k < |more| ensures ValidPreset(more[k]) {
      if k < i { assert more[k] == list[..i][k]; }
    }
  }

  lemma StillDistinct(list: seq<Preset>, i: nat)
    requires i < |list| && Distinct(list[..i]) && list[i].id !in Elements(Ids(list[..i]))
    ensures Distinct(list[..i + 1])
  {
    var more := list[..i + 1];
    forall j, k | 0 <= j < k < |more| ensures more[j].id != more[k].id {
      assert more[j] == list[..i][j] && Ids(list[..i])[j] == list[j].id;
      if k < i { assert more[k] == list[..i][k]; }
    }
  }
}
