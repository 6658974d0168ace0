/**
 * The preset store as a state machine (internal/gsm/presets.go): a map in memory, one file that is
 * replaced atomically, a failure point at every step of the replacement, and
 * power losses that bring back a file whose replacement had not been synced.
 */
module PresetRuns {
  import opened Common
  import opened Strings
  import opened PresetFile

  // ---- The state machine -----------------------------------------------------------------

  datatype Memory = Down | Up(items: Items, poisoned: bool)

  /** `older` are the files that a power loss may still bring back, oldest first. */
  datatype State = State(file: File, older: seq<File>, memory: Memory)

  /** How persist ends: nothing replaced, replaced, or replaced but not known to be durable. */
  datatype Write = Untouched | Committed | Unsynced

  datatype Edit = Create(preset: Preset) | Update(id: string, preset: Preset) | Delete(id: string)

  /**
   * Launching a store, one edit, the death of the process during an edit, and a
   * power loss that undoes the last `undone` replacements not yet synced.
   */
  datatype Event =
    | Launch(readable: bool, write: Write)
    | Apply(edit: Edit, write: Write)
    | Die(edit: Edit, write: Write)
    | PowerLoss(undone: nat)

  ghost predicate IsWritten(codec: Codec, next: Items, file: File) {
    file.Regular? && |file.bytes| <= MAX_FILE_BYTES && IsImage(codec, next, file.bytes)
  }

  ghost predicate Written(codec: Codec, s: State, next: Items, write: Write, s': State) {
    match write
    case Untouched => s'.file == s.file && s'.older == s.older
    case Committed => IsWritten(codec, next, s'.file) && s'.older == []
    case Unsynced => IsWritten(codec, next, s'.file) && s'.older == s.older + [s.file]
  }

  predicate Admits(items: Items, edit: Edit) {
    match edit
    case Create(p) => ValidPreset(p) && p.id !in items && |items| < MAX_PRESETS
    case Update(id, p) => ValidPreset(p.(id := id)) && id in items
    case Delete(id) => id in items
  }

  function Edited(items: Items, edit: Edit): Items {
    match edit
    case Create(p) => items[p.id := p]
    case Update(id, p) => items[id := p.(id := id)]
    case Delete(id) => items - {id}
  }

  /** What a store should start from, given what the file says. */
  function Initial(c: Contents): Items {
    match c
    case Unset => ToMap(DefaultPresets())
    case Bad => map[]
    case V1(items) => Migrated(items)
    case V2(items) => items
  }

  ghost predicate Usable(c: Contents) { !c.Bad? && |Initial(c)| <= MAX_PRESETS }

  ghost predicate Launched(codec: Codec, s: State, readable: bool, write: Write, s': State) {
    var c := Parse(codec, s.file);
    if !readable || !Usable(c) then write.Untouched? && s' == s.(memory := Up(map[], true))
    else if c.V2? then write.Untouched? && s' == s.(memory := Up(c.items, false))
    else
      && Written(codec, s, Initial(c), write, s')
      && s'.memory == (if write.Committed? then Up(Initial(c), false) else Up(map[], true))
  }

  ghost predicate Applied(codec: Codec, s: State, edit: Edit, write: Write, s': State)
    requires s.memory.Up?
  {
    if s.memory.poisoned || !Admits(s.memory.items, edit) then write.Untouched? && s' == s
    else
      && Written(codec, s, Edited(s.memory.items, edit), write, s')
      && s'.memory == match write
                      case Untouched => s.memory
                      case Committed => Up(Edited(s.memory.items, edit), false)
                      case Unsynced => Up(s.memory.items, true)
  }

  ghost predicate Next(codec: Codec, s: State, e: Event, s': State) {
    match e
    case Launch(readable, write) => s.memory.Down? && Launched(codec, s, readable, write, s')
    case Apply(edit, write) => s.memory.Up? && Applied(codec, s, edit, write, s')
    case Die(edit, write) =>
      && s.memory.Up? && s'.memory.Down?
      && (!write.Untouched? ==> !s.memory.poisoned && Admits(s.memory.items, edit))
      && Written(codec, s, Edited(s.memory.items, edit), write, s')
    case PowerLoss(undone) =>
      undone <= |s.older| && s' == State((s.older + [s.file])[|s.older| - undone], [], Down)
  }

  /** A store that still works agrees with its file. */
  ghost predicate Inv(codec: Codec, s: State) {
    s.memory.Up? && !s.memory.poisoned ==> Parse(codec, s.file) == V2(s.memory.items)
  }

  // ---- One step ------------------------------------------------------------------------------

  lemma EditedCount(items: Items, edit: Edit)
    requires |items| <= MAX_PRESETS && Admits(items, edit)
    ensures |Edited(items, edit)| <= MAX_PRESETS
  {
    var next := Edited(items, edit);
    assert |next.Keys| == |next| && |items.Keys| == |items|;
    match edit
    case Create(p) => assert next.Keys == items.Keys + {p.id};
    case Update(id, p) => assert next.Keys == items.Keys;
    case Delete(id) => assert next.Keys == items.Keys - {id};
  }

  lemma EditedKeyed(items: Items, edit: Edit)
    requires Keyed(items) && Admits(items, edit)
    ensures Keyed(Edited(items, edit))
  {
  }

  lemma EditedWellFormed(items: Items, edit: Edit)
    requires WellFormed(items) && Admits(items, edit)
    ensures WellFormed(Edited(items, edit))
  {
    EditedCount(items, edit);
    EditedKeyed(items, edit);
  }

  lemma InitialWellFormed(codec: Codec, file: File)
    requires Usable(Parse(codec, file))
    ensures WellFormed(Initial(Parse(codec, file)))
  {
    var c := Parse(codec, file);
    ParsedIsWellFormed(codec, file);
    DefaultsAreValid(DefaultPresets());
    if c.V1? { MigratedKeyed(c.items, ToMap(DefaultPresets())); }
  }

  lemma WrittenLoads(codec: Codec, next: Items, file: File)
    requires Lawful(codec) && WellFormed(next) && IsWritten(codec, next, file)
    ensures Parse(codec, file) == V2(next)
  {
    ImageLoads(codec, next, file.bytes);
  }

  /** What the event does to the file; a power loss is not a write. */
  function WriteOf(e: Event): Write { if e.PowerLoss? then Untouched else e.write }

  predicate Edits(e: Event) { (e.Apply? || e.Die?) && !e.write.Untouched? }

  /** What a newly written file means, from what the file before it meant. */
  function Meant(c: Contents, e: Event): Contents {
    if Edits(e) then (if c.V2? then V2(Edited(c.items, e.edit)) else c)
    else if e.Launch? && !e.write.Untouched? then V2(Initial(c))
    else c
  }

  /** What the file means, and before it what each file means that a power loss may bring back. */
  ghost function Meanings(codec: Codec, s: State): (r: seq<Contents>)
    ensures |r| == |s.older| + 1 && r[|s.older|] == Parse(codec, s.file)
    ensures forall i :: 0 <= i < |s.older| ==> r[i] == Parse(codec, s.older[i])
  {
    seq(|s.older|, i requires 0 <= i < |s.older| => Parse(codec, s.older[i])) + [Parse(codec, s.file)]
  }

  /** ... and after one more event. A synced write leaves nothing to bring back. */
  function MeantAll(cs: seq<Contents>, e: Event): (r: seq<Contents>)
    requires cs != []
    ensures r != []
  {
    if e.PowerLoss? then (if e.undone < |cs| then [cs[|cs| - 1 - e.undone]] else cs)
    else match e.write
         case Untouched => cs
         case Committed => [Meant(cs[|cs| - 1], e)]
         case Unsynced => cs + [Meant(cs[|cs| - 1], e)]
  }

  lemma EditMeans(codec: Codec, s: State, edit: Edit, file': File)
    requires Lawful(codec) && Inv(codec, s) && s.memory.Up? && !s.memory.poisoned && Admits(s.memory.items, edit)
    requires IsWritten(codec, Edited(s.memory.items, edit), file')
    ensures Parse(codec, s.file).V2? && Parse(codec, file') == V2(Edited(Parse(codec, s.file).items, edit))
  {
    ParsedIsWellFormed(codec, s.file);
    EditedWellFormed(s.memory.items, edit);
    WrittenLoads(codec, Edited(s.memory.items, edit), file');
  }

  /** One step keeps a working store in agreement with its file, and a written file means what it should. */
  lemma StepMeans(codec: Codec, s: State, e: Event, s': State)
    requires Lawful(codec) && Inv(codec, s) && Next(codec, s, e, s')
    ensures Inv(codec, s')
    ensures !e.PowerLoss? ==> Parse(codec, s'.file) == Meant(Parse(codec, s.file), e)
    ensures !WriteOf(e).Untouched? ==> Usable(Parse(codec, s.file)) && Parse(codec, s'.file).V2?
    ensures e.Launch? && !e.write.Untouched? ==> !Parse(codec, s.file).V2?
    ensures Edits(e) ==> Parse(codec, s.file).V2? && Admits(Parse(codec, s.file).items, e.edit)
  {
    if !WriteOf(e).Untouched? {
      match e
      case Launch(readable, write) =>
        InitialWellFormed(codec, s.file);
        WrittenLoads(codec, Initial(Parse(codec, s.file)), s'.file);
      case Apply(edit, write) =>
        EditMeans(codec, s, edit, s'.file);
        ParsedIsWellFormed(codec, s.file);
      case Die(edit, write) =>
        EditMeans(codec, s, edit, s'.file);
        ParsedIsWellFormed(codec, s.file);
    }
  }

  /** One step changes what the files mean, and what may come back, as `MeantAll` says. */
  lemma StepMeansAll(codec: Codec, s: State, e: Event, s': State)
    requires Lawful(codec) && Inv(codec, s) && Next(codec, s, e, s')
    ensures Meanings(codec, s') == MeantAll(Meanings(codec, s), e)
  {
    StepMeans(codec, s, e, s');
    StepFiles(codec, s, e, s');
    if e.PowerLoss? {
      assert Meanings(codec, s') == [Meanings(codec, s)[|s.older| - e.undone]];
    } else if e.write.Unsynced? {
      OneMore(codec, s, s');
    }
  }

  /** What an event does to the files that may come back. */
  lemma StepFiles(codec: Codec, s: State, e: Event, s': State)
    requires Next(codec, s, e, s')
    ensures match WriteOf(e)
            case Untouched => if e.PowerLoss? then s'.older == [] else s'.older == s.older && s'.file == s.file
            case Committed => s'.older == []
            case Unsynced => s'.older == s.older + [s.file]
  {
  }

  lemma OneMore(codec: Codec, s: State, s': State)
    requires s'.older == s.older + [s.file]
    ensures Meanings(codec, s') == Meanings(codec, s) + [Parse(codec, s'.file)]
  {
    forall i | 0 <= i <= |s.older| ensures Meanings(codec, s')[i] == Meanings(codec, s)[i] {
      assert s'.older[i] == (s.older + [s.file])[i];
    }
  }

  // ---- Runs ------------------------------------------------------------------------------------

  ghost predicate IsRun(codec: Codec, states: seq<State>, events: seq<Event>) {
    && |states| == |events| + 1
    && (forall i :: 0 <= i < |events| ==> StepAt(codec, states, events, i))
  }

  ghost predicate StepAt(codec: Codec, states: seq<State>, events: seq<Event>, i: nat)
    requires i < |events| < |states|
  {
    Next(codec, states[i], events[i], states[i + 1])
  }

  lemma RunInit(codec: Codec, states: seq<State>, events: seq<Event>)
    requires IsRun(codec, states, events) && events != []
    ensures IsRun(codec, states[..|states| - 1], events[..|events| - 1])
    ensures Next(codec, states[|events| - 1], events[|events| - 1], states[|events|])
  {
    var ss, es := states[..|states| - 1], events[..|events| - 1];
    forall i | 0 <= i < |es| ensures StepAt(codec, ss, es, i) {
      assert StepAt(codec, states, events, i);
    }
    assert StepAt(codec, states, events, |events| - 1);
  }

  lemma RunTail(codec: Codec, states: seq<State>, events: seq<Event>, k: nat)
    requires IsRun(codec, states, events) && k <= |events|
    ensures IsRun(codec, states[k..], events[k..]) && IsRun(codec, states[..k + 1], events[..k])
  {
    var tail, later := states[k..], events[k..];
    forall i | 0 <= i < |later| ensures StepAt(codec, tail, later, i) {
      assert StepAt(codec, states, events, k + i);
    }
    var head, sooner := states[..k + 1], events[..k];
    forall i | 0 <= i < |sooner| ensures StepAt(codec, head, sooner, i) {
      assert StepAt(codec, states, events, i);
    }
  }

  /** What the files mean after a history of events. */
  function History(cs: seq<Contents>, events: seq<Event>): (r: seq<Contents>)
    requires cs != []
    ensures r != []
  {
    if events == [] then cs else MeantAll(History(cs, events[..|events| - 1]), events[|events| - 1])
  }

  /**
   * After any run with failures, crashes, restarts and power losses, the file and
   * the files that may come back mean exactly what the history says.
   */
  lemma {:induction false} RunMeaning(codec: Codec, states: seq<State>, events: seq<Event>)
    requires Lawful(codec) && IsRun(codec, states, events) && Inv(codec, states[0])
    ensures Inv(codec, states[|events|])
    ensures Meanings(codec, states[|events|]) == History(Meanings(codec, states[0]), events)
    decreases |events|
  {
    if events != [] {
      var n := |events| - 1;
      RunInit(codec, states, events);
      RunMeaning(codec, states[..n + 1], events[..n]);
      assert states[..n + 1][n] == states[n] && states[..n + 1][0] == states[0];
      StepMeans(codec, states[n], events[n], states[n + 1]);
      StepMeansAll(codec, states[n], events[n], states[n + 1]);
    }
  }

  // ---- Histories without an undoing power loss ---------------------------------------------------

  predicate Undoes(e: Event) { e.PowerLoss? && e.undone > 0 }

  predicate NothingUndone(events: seq<Event>) { forall i :: 0 <= i < |events| ==> !Undoes(events[i]) }

  /** The committed edits, in order. */
  function Log(items: Items, events: seq<Event>): Items {
    if events == [] then items
    else
      var e, before := events[|events| - 1], Log(items, events[..|events| - 1]);
      if Edits(e) then Edited(before, e.edit) else before
  }

  predicate Wrote(events: seq<Event>) { exists i :: 0 <= i < |events| && !WriteOf(events[i]).Untouched? }

  lemma WroteLast(events: seq<Event>)
    requires events != []
    ensures Wrote(events) <==> Wrote(events[..|events| - 1]) || !WriteOf(events[|events| - 1]).Untouched?
  {
    if Wrote(events[..|events| - 1]) {
      var i :| 0 <= i < |events| - 1 && !WriteOf(events[..|events| - 1][i]).Untouched?;
      assert !WriteOf(events[i]).Untouched?;
    }
    if Wrote(events) {
      var i :| 0 <= i < |events| && !WriteOf(events[i]).Untouched?;
      if i < |events| - 1 { assert !WriteOf(events[..|events| - 1][i]).Untouched?; }
    }
  }

  lemma {:induction false} NothingLogged(items: Items, events: seq<Event>)
    requires !Wrote(events)
    ensures Log(items, events) == items
    decreases |events|
  {
    if events != [] {
      WroteLast(events);
      NothingLogged(items, events[..|events| - 1]);
    }
  }

  /** A file that was never written since it was synced stays as it is; one that cannot be used is never written. */
  lemma {:induction false} UntouchedFile(codec: Codec, states: seq<State>, events: seq<Event>)
    requires Lawful(codec) && IsRun(codec, states, events) && Inv(codec, states[0]) && states[0].older == []
    ensures !Wrote(events) ==> states[|events|].file == states[0].file && states[|events|].older == []
    ensures Wrote(events) ==> Usable(Parse(codec, states[0].file))
    decreases |events|
  {
    if events != [] {
      var n := |events| - 1;
      RunInit(codec, states, events);
      UntouchedFile(codec, states[..n + 1], events[..n]);
      RunMeaning(codec, states[..n + 1], events[..n]);
      assert states[..n + 1][n] == states[n] && states[..n + 1][0] == states[0];
      WroteLast(events);
      StepMeans(codec, states[n], events[n], states[n + 1]);
    }
  }

  /**
   * If no power loss undoes anything, the file means what it meant, or the
   * initial items with exactly the committed edits applied.
   */
  lemma {:induction false} RunLogs(codec: Codec, states: seq<State>, events: seq<Event>)
    requires Lawful(codec) && IsRun(codec, states, events) && Inv(codec, states[0]) && NothingUndone(events)
    ensures Inv(codec, states[|events|])
    ensures !Wrote(events) ==> states[|events|].file == states[0].file
    ensures Wrote(events) || Parse(codec, states[0].file).V2? ==>
              Parse(codec, states[|events|].file) == V2(Log(Initial(Parse(codec, states[0].file)), events))
    decreases |events|
  {
    if events != [] {
      var n := |events| - 1;
      RunInit(codec, states, events);
      RunLogs(codec, states[..n + 1], events[..n]);
      assert states[..n + 1][n] == states[n] && states[..n + 1][0] == states[0];
      StepMeans(codec, states[n], events[n], states[n + 1]);
      WroteLast(events);
      assert !Undoes(events[n]);
      if !Wrote(events[..n]) && !Parse(codec, states[0].file).V2? {
        NothingLogged(Initial(Parse(codec, states[0].file)), events[..n]);
      }
    }
  }

  /** A launch that succeeds shows the initial items with exactly the committed edits. */
  lemma LaunchShowsLog(codec: Codec, states: seq<State>, events: seq<Event>)
    requires Lawful(codec) && IsRun(codec, states, events) && Inv(codec, states[0]) && NothingUndone(events)
    requires states[|events|].memory.Up? && !states[|events|].memory.poisoned && states[0].memory.Down?
    ensures states[|events|].memory.items == Log(Initial(Parse(codec, states[0].file)), events)
    ensures WellFormed(states[|events|].memory.items)
  {
    RunLogs(codec, states, events);
    ParsedIsWellFormed(codec, states[|events|].file);
  }

  // ---- What survives -----------------------------------------------------------------------------

  function EditedId(edit: Edit): string {
    match edit
    case Create(p) => p.id
    case Update(id, _) => id
    case Delete(id) => id
  }

  /** What the items say about one ID. */
  function Entry(items: Items, id: string): Option<Preset> { if id in items then Some(items[id]) else None }

  predicate Says(c: Contents, id: string, entry: Option<Preset>) { c.V2? && Entry(c.items, id) == entry }

  predicate Touches(e: Event, id: string) { Edits(e) && EditedId(e.edit) == id }

  /** The file and everything that may come back say the same about an ID. */
  ghost predicate AllSay(codec: Codec, s: State, id: string, entry: Option<Preset>) {
    && Says(Parse(codec, s.file), id, entry)
    && (forall i :: 0 <= i < |s.older| ==> Says(Parse(codec, s.older[i]), id, entry))
  }

  lemma StepSays(codec: Codec, s: State, e: Event, s': State, id: string, entry: Option<Preset>)
    requires Lawful(codec) && Inv(codec, s) && Next(codec, s, e, s') && !Touches(e, id)
    requires Says(Parse(codec, s.file), id, entry)
    ensures !e.PowerLoss? ==> Says(Parse(codec, s'.file), id, entry)
  {
    StepMeans(codec, s, e, s');
  }

  lemma StepAllSay(codec: Codec, s: State, e: Event, s': State, id: string, entry: Option<Preset>)
    requires Lawful(codec) && Inv(codec, s) && Next(codec, s, e, s') && !Touches(e, id) && AllSay(codec, s, id, entry)
    ensures AllSay(codec, s', id, entry)
  {
    StepSays(codec, s, e, s', id, entry);
    if !e.PowerLoss? && e.write.Unsynced? {
      forall i | 0 <= i < |s'.older| ensures Says(Parse(codec, s'.older[i]), id, entry) {
        if i < |s.older| { assert s'.older[i] == s.older[i]; }
      }
    }
  }

  lemma {:induction false} RunAllSay(codec: Codec, states: seq<State>, events: seq<Event>, id: string, entry: Option<Preset>)
    requires Lawful(codec) && IsRun(codec, states, events) && Inv(codec, states[0]) && AllSay(codec, states[0], id, entry)
    requires forall i :: 0 <= i < |events| ==> !Touches(events[i], id)
    ensures Inv(codec, states[|events|]) && AllSay(codec, states[|events|], id, entry)
    decreases |events|
  {
    if events != [] {
      var n := |events| - 1;
      RunInit(codec, states, events);
      RunAllSay(codec, states[..n + 1], events[..n], id, entry);
      assert states[..n + 1][n] == states[n] && states[..n + 1][0] == states[0];
      StepMeans(codec, states[n], events[n], states[n + 1]);
      StepAllSay(codec, states[n], events[n], states[n + 1], id, entry);
    }
  }

  lemma {:induction false} RunSays(codec: Codec, states: seq<State>, events: seq<Event>, id: string, entry: Option<Preset>)
    requires Lawful(codec) && IsRun(codec, states, events) && Inv(codec, states[0]) && NothingUndone(events)
    requires Says(Parse(codec, states[0].file), id, entry)
    requires forall i :: 0 <= i < |events| ==> !Touches(events[i], id)
    ensures Inv(codec, states[|events|]) && Says(Parse(codec, states[|events|].file), id, entry)
    decreases |events|
  {
    if events != [] {
      var n := |events| - 1;
      RunInit(codec, states, events);
      RunSays(codec, states[..n + 1], events[..n], id, entry);
      assert states[..n + 1][n] == states[n] && states[..n + 1][0] == states[0];
      StepMeans(codec, states[n], events[n], states[n + 1]);
      StepSays(codec, states[n], events[n], states[n + 1], id, entry);
      assert !Undoes(events[n]);
    }
  }

  /** What an edit makes of its own ID. */
  function EditEntry(edit: Edit): Option<Preset> {
    match edit
    case Create(p) => Some(p)
    case Update(id, p) => Some(p.(id := id))
    case Delete(_) => None
  }

  lemma EditSays(codec: Codec, states: seq<State>, events: seq<Event>, k: nat)
    requires Lawful(codec) && IsRun(codec, states, events) && Inv(codec, states[0]) && k < |events| && Edits(events[k])
    ensures Inv(codec, states[k + 1])
    ensures Says(Parse(codec, states[k + 1].file), EditedId(events[k].edit), EditEntry(events[k].edit))
    ensures events[k].write.Committed? ==> states[k + 1].older == []
  {
    var head, sooner := states[..k + 1], events[..k];
    RunTail(codec, states, events, k);
    RunMeaning(codec, head, sooner);
    assert head[k] == states[k] && head[0] == states[0];
    assert StepAt(codec, states, events, k);
    EditStep(codec, states[k], events[k], states[k + 1]);
  }

  lemma EditStep(codec: Codec, s: State, e: Event, s': State)
    requires Lawful(codec) && Inv(codec, s) && Next(codec, s, e, s') && Edits(e)
    ensures Inv(codec, s') && Says(Parse(codec, s'.file), EditedId(e.edit), EditEntry(e.edit))
    ensures e.write.Committed? ==> s'.older == []
  {
    StepMeans(codec, s, e, s');
  }

  /**
   * An acknowledged edit survives everything: failures, crashes, restarts and
   * power losses. One that was not synced survives unless a power loss undoes it.
   * In particular a deleted preset, built-in or not, never returns by itself.
   */
  lemma EditSurvives(codec: Codec, states: seq<State>, events: seq<Event>, k: nat)
    requires Lawful(codec) && IsRun(codec, states, events) && Inv(codec, states[0]) && k < |events| && Edits(events[k])
    requires events[k].write.Committed? || NothingUndone(events[k + 1..])
    requires forall i :: k < i < |events| ==> !Touches(events[i], EditedId(events[k].edit))
    ensures Says(Parse(codec, states[|events|].file), EditedId(events[k].edit), EditEntry(events[k].edit))
    ensures states[|events|].memory.Up? && !states[|events|].memory.poisoned ==>
              Entry(states[|events|].memory.items, EditedId(events[k].edit)) == EditEntry(events[k].edit)
  {
    EditSays(codec, states, events, k);
    RunTail(codec, states, events, k + 1);
    var rest, later := states[k + 1..], events[k + 1..];
    assert rest[0] == states[k + 1] && rest[|later|] == states[|events|];
    var id, entry := EditedId(events[k].edit), EditEntry(events[k].edit);
    forall i | 0 <= i < |later| ensures !Touches(later[i], id) {
      assert later[i] == events[k + 1 + i];
    }
    if events[k].write.Committed? {
      RunAllSay(codec, rest, later, id, entry);
    } else {
      RunSays(codec, rest, later, id, entry);
    }
  }

  predicate Creates(e: Event, id: string) { Edits(e) && e.edit.Create? && e.edit.preset.id == id }

  /** The file and everything that may come back lack the ID. */
  ghost predicate AllLack(codec: Codec, s: State, id: string) { AllSay(codec, s, id, None) }

  lemma {:induction false} AbsentStays(codec: Codec, states: seq<State>, events: seq<Event>, id: string)
    requires Lawful(codec) && IsRun(codec, states, events) && Inv(codec, states[0]) && AllLack(codec, states[0], id)
    requires forall i :: 0 <= i < |events| ==> !Creates(events[i], id)
    ensures Inv(codec, states[|events|]) && AllLack(codec, states[|events|], id)
    decreases |events|
  {
    if events != [] {
      var n := |events| - 1;
      RunInit(codec, states, events);
      AbsentStays(codec, states[..n + 1], events[..n], id);
      assert states[..n + 1][n] == states[n] && states[..n + 1][0] == states[0];
      StepMeans(codec, states[n], events[n], states[n + 1]);
      assert !Creates(events[n], id);
      assert !Touches(events[n], id);
      StepAllSay(codec, states[n], events[n], states[n + 1], id, None);
    }
  }

  lemma {:induction false} AbsentUnlessUndone(codec: Codec, states: seq<State>, events: seq<Event>, id: string)
    requires Lawful(codec) && IsRun(codec, states, events) && Inv(codec, states[0]) && NothingUndone(events)
    requires Says(Parse(codec, states[0].file), id, None)
    requires forall i :: 0 <= i < |events| ==> !Creates(events[i], id)
    ensures Inv(codec, states[|events|]) && Says(Parse(codec, states[|events|].file), id, None)
    decreases |events|
  {
    if events != [] {
      var n := |events| - 1;
      RunInit(codec, states, events);
      AbsentUnlessUndone(codec, states[..n + 1], events[..n], id);
      assert states[..n + 1][n] == states[n] && states[..n + 1][0] == states[0];
      StepMeans(codec, states[n], events[n], states[n + 1]);
      assert !Creates(events[n], id) && !Undoes(events[n]);
      assert !Touches(events[n], id);
      StepSays(codec, states[n], events[n], states[n + 1], id, None);
    }
  }

  /** A deleted preset, built-in or not, never returns by itself: not by an edit, a crash, a restart or a migration. */
  lemma DeletedStaysDeleted(codec: Codec, states: seq<State>, events: seq<Event>, k: nat, id: string)
    requires Lawful(codec) && IsRun(codec, states, events) && Inv(codec, states[0]) && k < |events|
    requires Edits(events[k]) && events[k].edit == Delete(id)
    requires events[k].write.Committed? || NothingUndone(events[k + 1..])
    requires forall i :: k < i < |events| ==> !Creates(events[i], id)
    ensures Parse(codec, states[|events|].file).V2? && id !in Parse(codec, states[|events|].file).items
    ensures states[|events|].memory.Up? && !states[|events|].memory.poisoned ==> id !in states[|events|].memory.items
  {
    EditSays(codec, states, events, k);
    RunTail(codec, states, events, k + 1);
    var rest, later := states[k + 1..], events[k + 1..];
    assert rest[0] == states[k + 1] && rest[|later|] == states[|events|];
    forall i | 0 <= i < |later| ensures !Creates(later[i], id) {
      assert later[i] == events[k + 1 + i];
    }
    if events[k].write.Committed? {
      AbsentStays(codec, rest, later, id);
    } else {
      AbsentUnlessUndone(codec, rest, later, id);
    }
  }

  /** Why a store whose directory could not be synced must not go on: a power loss takes its edit back. */
  lemma UnsyncedMayBeUndone(codec: Codec, s: State, edit: Edit, s': State, t: State)
    requires Next(codec, s, Apply(edit, Unsynced), s') && t == State(s.file, [], Down)
    ensures Next(codec, s', PowerLoss(1), t) && s'.memory.Up? && s'.memory.poisoned
  {
    assert (s'.older + [s'.file])[|s'.older| - 1] == s.file;
  }

  lemma SilentStep(codec: Codec, s: State, e: Event, s': State)
    requires Next(codec, s, e, s') && s.memory.Up? && s.memory.poisoned && !e.Die? && !e.PowerLoss?
    ensures s' == s && WriteOf(e).Untouched?
  {
  }

  /** Until the process is gone, a poisoned store changes nothing at all. */
  lemma {:induction false} PoisonedIsSilent(codec: Codec, states: seq<State>, events: seq<Event>)
    requires IsRun(codec, states, events) && states[0].memory.Up? && states[0].memory.poisoned
    requires forall i :: 0 <= i < |events| ==> !events[i].Die? && !events[i].PowerLoss?
    ensures states[|events|] == states[0] && !Wrote(events)
    decreases |events|
  {
    if events != [] {
      var n := |events| - 1;
      RunInit(codec, states, events);
      PoisonedIsSilent(codec, states[..n + 1], events[..n]);
      assert states[..n + 1][n] == states[n] && states[..n + 1][0] == states[0];
      SilentStep(codec, states[n], events[n], states[n + 1]);
      WroteLast(events);
    }
  }

  /** These items together with the built-in presets they lack, and nothing else. */
  ghost predicate IsCompletion(own: Items, all: Items) {
    && (forall id :: id in all <==> id in own || IsBuiltIn(id))
    && (forall id :: id in own ==> id in all && all[id] == own[id])
    && (forall p :: p in DefaultPresets() && p.id !in own ==> p.id in all && all[p.id] == p)
  }

  lemma MigratedCompletes(own: Items)
    ensures IsCompletion(own, Migrated(own))
  {
    var list := DefaultPresets();
    DefaultIds();
    HoldsAll(list);
    forall id ensures id in ToMap(list) <==> IsBuiltIn(id) {
      if IsBuiltIn(id) { var p :| p in list && p.id == id; }
    }
  }

  lemma CompletionUnique(own: Items, a: Items, b: Items)
    requires IsCompletion(own, a) && IsCompletion(own, b)
    ensures a == b
  {
    forall id | id in a ensures id in b && a[id] == b[id] {
      if id !in own { var p :| p in DefaultPresets() && p.id == id; }
    }
    assert forall id :: id in b ==> id in a;
  }

  /**
   * A version-1 file is completed: it keeps every item of its own and gains
   * every built-in preset it lacks. The file is left alone, and the store
   * refuses to work, exactly if that would be more than 256 items.
   */
  lemma MigrationAddsOnlyMissing(codec: Codec, s: State, write: Write, s': State)
    requires Lawful(codec) && Next(codec, s, Launch(true, write), s') && Parse(codec, s.file).V1?
    ensures exists all :: IsCompletion(Parse(codec, s.file).items, all)
    ensures forall all :: IsCompletion(Parse(codec, s.file).items, all) ==>
              if |all| > 256 then s'.file == s.file && s'.memory.poisoned
              else write.Committed? ==> s'.memory == Up(all, false) && Parse(codec, s'.file) == V2(all)
  {
    var own := Parse(codec, s.file).items;
    StepMeans(codec, s, Launch(true, write), s');
    MigratedCompletes(own);
    forall all | IsCompletion(own, all) ensures all == Migrated(own) { CompletionUnique(own, all, Migrated(own)); }
  }

  /** Without a file a committed launch shows exactly the built-in presets. */
  lemma FirstLaunch(codec: Codec, s: State, s': State)
    requires Lawful(codec) && Next(codec, s, Launch(true, Committed), s') && s.file.Missing?
    ensures s'.memory.Up? && !s'.memory.poisoned && Parse(codec, s'.file) == V2(s'.memory.items)
    ensures |s'.memory.items| == 5 && Holds(s'.memory.items, DefaultPresets())
  {
    StepMeans(codec, s, Launch(true, Committed), s');
    DefaultsAreValid(DefaultPresets());
    DistinctCount(DefaultPresets());
    HoldsAll(DefaultPresets());
  }
}
