/** A start that succeeds although a concurrent read loses its session (internal/gsm/manager.go). */
module LifecycleExample {
  import opened Common
  import opened LogFiles
  import opened SmsCursor
  import opened SmsOutcome
  import opened SmsSession
  import PresetFile
  import RadioParams
  import opened RadioConfig
  import opened Lifecycle
  import LifecycleRuns

  /** Two rotations in a row. */
  function TwoRotations(): seq<Step> { [RemoveBackup, RenameToBackup, Create] + [RemoveBackup, RenameToBackup, Create] }

  lemma OneRotation(d: Disk)
    requires Inv(d)
    ensures Run(d, [RemoveBackup, RenameToBackup, Create]) == Disk(d.files + [[]], Some(|d.files|), d.current)
  {
    var a := Apply(d, RemoveBackup);
    var b := Apply(a, RenameToBackup);
    assert [RemoveBackup, RenameToBackup, Create][1..] == [RenameToBackup, Create];
    assert [RenameToBackup, Create][1..] == [Create];
    assert Run(b, [Create]) == Run(Apply(b, Create), [Create][1..]);
  }

  /** After two rotations neither name denotes an old file. */
  lemma BothReplaced(d: Disk)
    requires Inv(d)
    ensures var e := Run(d, TwoRotations()); e.backup == Some(|d.files|) && e.current == Some(|d.files| + 1)
  {
    RunConcat(d, [RemoveBackup, RenameToBackup, Create], [RemoveBackup, RenameToBackup, Create]);
    OneRotation(d);
    OneRotation(Disk(d.files + [[]], Some(|d.files|), d.current));
  }

  function Rotating(): Environment { (p: IoPoint) => if p == Open(0) then TwoRotations() else [] }

  const NO_FAULTS: Faults := p => false

  /** The log is rotated twice before each attempt. */
  function LosingCall(): ReadCall { ReadCall(100, Rotating(), NO_FAULTS, Rotating(), NO_FAULTS) }

  lemma RotatedAway(d: Disk, start: Cursor)
    requires Inv(d) && Sound(d, start)
    ensures BoundaryFails(d, Rotating(), NO_FAULTS, start, None, 100)
  {
    assert Rotating()(Open(0)) == TwoRotations() && Rotating()(Stat(0)) == [] && Rotating()(Open(1)) == [];
    BothReplaced(d);
    var first := FirstOpen(d, Rotating());
    assert BackupSeen(d, Rotating()) == first && SecondOpen(d, Rotating()) == first;
  }

  lemma CallLoses(at: (Disk, Disk), start: Cursor)
    requires IsTrailStep(start, at)
    ensures LosesAt(at, LosingCall(), start, None)
  {
    SoundStable(at.0, at.1, start);
    RotatedAway(at.0, start);
    RotatedAway(at.1, start);
  }

  /** Every start that succeeds under such a read leaves a lost session. */
  lemma AlwaysLost(trail: Trail, start: Cursor)
    requires IsTrail(start, [LosingCall()], trail)
    ensures LosesAny(trail, [LosingCall()], start, None)
  {
    assert IsTrailStep(start, trail[0]);
    CallLoses(trail[0], start);
    assert LosesAt(trail[0], [LosingCall()][0], start, None);
  }

  /** A manager on an empty log directory and a table with one row for each setting. */
  method NewManager(p: RadioParams.Params) returns (m: Manager)
    ensures fresh(m) && fresh(m.sms) && fresh(m.sms.dir) && fresh(m.table)
    ensures m.Valid() && AllKeysOnce(m.table.rows) && m.Now() == Cell(None, [], None, 0, [])
  {
    var dir := new LogDir(Disk([], None, None));
    var sms := new SmsManager(dir);
    FullTable(p);
    var table := new ConfigTable(Settings(p, |RADIO_KEYS|));
    m := new Manager(sms, table);
  }

  /** The start succeeds, and the session it leaves is lost. */
  method StartWithLostSession(p: RadioParams.Params) returns (started: bool, m: Manager)
    requires RadioParams.Valid(p)
    ensures started && m.sms.session.Some? && m.sms.session.value.state == BoundaryLost
  {
    m := NewManager(p);
    ghost var e, trail;
    started, e, trail := m.Start(p, "session", 0, false, false, k => false, q => false, k => false,
                                 q => [], NO_FAULTS, [LosingCall()]);
    AlwaysLost(trail, m.sms.session.value.start);
  }

  /** ... for instance with the parameters of a built-in preset. */
  method LostWithDefaultPreset() returns (started: bool, m: Manager)
    ensures started && m.sms.session.Some? && m.sms.session.value.state == BoundaryLost
  {
    PresetFile.DefaultValid1();
    started, m := StartWithLostSession(PresetFile.DefaultPresets()[1].params);
  }

  // ---- A service that is forgotten --------------------------------------------------------------

  lemma AllMissing(present: nat -> bool)
    requires forall i :: !present(i)
    ensures ToLaunch(present) == ["sipauthserve", "smqueue", "asterisk", "OpenBTS"]
  {
  }

  /** A start after which a service that was held before has no handle any more. */
  lemma ServiceForgotten(c: Cell, first: seq<Child>, d: Cell, e: Lifecycle.Event, f: Cell, id: string, lost: bool)
    requires c.owned == [] && c.main == None && c.trace == [] && c.serial == 0
    requires Moves(c, Started(id, first, lost), d) && e.Started? && Moves(d, e, f) && |first| == 4
    ensures LifecycleRuns.Forgotten(f, first[1])
  {
    var ch := first[1];
    LifecycleRuns.StepBalanced(c, Started(id, first, lost), d, ch);
    assert ch == d.owned[1];
    assert ch in multiset(Handles(d.main, d.owned));
    LifecycleRuns.UntidyStartForgets(d, e, f, ch);
  }

  /** The first start of a manager, with no service there yet. */
  method FirstStart(p: RadioParams.Params) returns (m: Manager, ghost first: seq<Child>, ghost lost: bool)
    requires RadioParams.Valid(p)
    ensures fresh(m) && fresh(m.sms) && fresh(m.sms.dir) && fresh(m.table) && m.Valid() && AllKeysOnce(m.table.rows)
    ensures |first| == 4 && first[1].name == "smqueue"
    ensures Moves(Cell(None, [], None, 0, []), Started("first", first, lost), m.Now())
  {
    m := NewManager(p);
    ghost var rows := m.table.rows;
    var ok;
    ghost var e, trail;
    var absent: nat -> bool := k => false;
    AllMissing(absent);
    ok, e, trail := m.Start(p, "first", 0, false, false, absent, q => false, k => false, q => [], NO_FAULTS, []);
    first, lost := e.launched, e.lost;
    assert Names(first)[1] == "smqueue";
    StillOnce(rows, m.table.rows);
  }

  /**
   * The cell is started, OpenBTS dies by itself, and the cell is started again
   * while the services are still there: smqueue was launched by this manager, is
   * not stopped, and no handle to it is left.
   */
  method RestartForgetsService(p: RadioParams.Params) returns (m: Manager, ghost service: Child)
    requires RadioParams.Valid(p)
    ensures service.name == "smqueue" && LifecycleRuns.Forgotten(m.Now(), service)
  {
    ghost var first, lost, e, trail;
    m, first, lost := FirstStart(p);
    ghost var d := m.Now();
    var ok;
    ok, e, trail := m.Start(p, "second", 1, false, false, k => true, q => false, k => false, q => [], NO_FAULTS, []);
    service := first[1];
    ServiceForgotten(Cell(None, [], None, 0, []), first, d, e, m.Now(), "first", lost);
  }
}
