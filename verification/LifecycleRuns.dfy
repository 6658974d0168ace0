/** What holds over every run of starts, stops and reads (internal/gsm/manager.go). */
module LifecycleRuns {
  import opened Common
  import SmsCursor
  import SmsSession
  import opened Lifecycle

  ghost predicate IsRun(cells: seq<Cell>, events: seq<Event>) {
    && |cells| == |events| + 1 && cells[0] == Cell(None, [], None, 0, [])
    && (forall i :: 0 <= i < |events| ==> StepAt(cells, events, i))
  }

  ghost predicate StepAt(cells: seq<Cell>, events: seq<Event>, i: nat)
    requires i < |events| < |cells|
  {
    Moves(cells[i], events[i], cells[i + 1])
  }

  lemma RunInit(cells: seq<Cell>, events: seq<Event>)
    requires IsRun(cells, events) && events != []
    ensures IsRun(cells[..|events|], events[..|events| - 1])
    ensures Moves(cells[|events| - 1], events[|events| - 1], cells[|events|])
  {
    var cs, es := cells[..|events|], events[..|events| - 1];
    forall i | 0 <= i < |es| ensures StepAt(cs, es, i) {
      assert StepAt(cells, events, i);
    }
    assert StepAt(cells, events, |events| - 1);
  }

  // ---- The session follows the lifecycle -------------------------------------------------------

  /** `lost`: the boundary of the session has been lost. */
  datatype Status = NoSession | Open(id: string, lost: bool) | Ended(id: string, lost: bool)

  function Losing(s: Status, lost: bool): Status {
    match s
    case NoSession => s
    case Open(id, was) => Open(id, was || lost)
    case Ended(id, was) => Ended(id, was || lost)
  }

  /** The session that a history of starts, stops and reads should leave. */
  function Expected(events: seq<Event>): Status {
    if events == [] then NoSession
    else
      var before := Expected(events[..|events| - 1]);
      match events[|events| - 1]
      case Refused => before
      case Queried(lost) => Losing(before, lost)
      case RolledBack(_) => NoSession
      case Started(id, _, lost) => Open(id, lost)
      case Halted(verified, lost) =>
        var now := Losing(before, lost);
        if verified && now.Open? then Ended(now.id, now.lost) else now
  }

  predicate Shown(s: Option<SmsSession.Session>, status: Status) {
    match status
    case NoSession => s.None?
    case Open(id, lost) => Live(s, id, lost)
    case Ended(id, lost) =>
      && s.Some? && s.value.id == id && s.value.ended.Some?
      && s.value.state == (if lost then SmsSession.BoundaryLost else SmsSession.Stopped)
  }

  /** After any run the session is exactly the one the history calls for: none, running, stopped or lost. */
  lemma {:induction false} SessionFollows(cells: seq<Cell>, events: seq<Event>)
    requires IsRun(cells, events)
    ensures Shown(cells[|events|].session, Expected(events))
    decreases |events|
  {
    if events != [] {
      RunInit(cells, events);
      var cs := cells[..|events|];
      SessionFollows(cs, events[..|events| - 1]);
      assert cs[|events| - 1] == cells[|events| - 1];
    }
  }

  // ---- Every child is accounted for --------------------------------------------------------------

  ghost function Launched(c: Cell, ch: Child): nat { multiset(c.trace)[Launch(ch)] }

  ghost function Stopped(c: Cell, ch: Child): nat { multiset(c.trace)[Stop(ch)] }

  ghost function Held(c: Cell, ch: Child): nat { multiset(Handles(c.main, c.owned))[ch] }

  lemma {:induction false} LaunchesBag(children: seq<Child>, ch: Child)
    ensures multiset(Launches(children))[Launch(ch)] == multiset(children)[ch]
    ensures multiset(Launches(children))[Stop(ch)] == 0
  {
    if children != [] {
      var init, last := children[..|children| - 1], children[|children| - 1];
      LaunchesBag(init, ch);
      assert children == init + [last] && Launches(children) == Launches(init) + [Launch(last)];
    }
  }

  lemma {:induction false} StopsBag(children: seq<Child>, ch: Child)
    ensures multiset(Stops(children))[Stop(ch)] == multiset(children)[ch]
    ensures multiset(Stops(children))[Launch(ch)] == 0
  {
    if children != [] {
      var init, last := children[..|children| - 1], children[|children| - 1];
      StopsBag(init, ch);
      assert children == init + [last] && Stops(children) == [Stop(last)] + Stops(init);
    }
  }

  lemma SweepsBag(ch: Child)
    ensures multiset(Sweeps())[Stop(ch)] == 0 && multiset(Sweeps())[Launch(ch)] == 0
  {
  }

  lemma {:induction false} FreshBag(children: seq<Child>, serial: nat, ch: Child)
    requires Fresh(children, serial)
    ensures multiset(children)[ch] <= 1
    ensures multiset(children)[ch] > 0 ==> serial <= ch.serial < serial + |children|
  {
    if children != [] {
      var init, last := children[..|children| - 1], children[|children| - 1];
      FreshBag(init, serial, ch);
      assert children == init + [last];
    }
  }

  /** No child is stopped twice, none is stopped that was not launched, and a handle is to a child not yet stopped. */
  ghost predicate Balanced(c: Cell, ch: Child) {
    Stopped(c, ch) + Held(c, ch) <= Launched(c, ch) <= 1 && (ch.serial >= c.serial ==> Launched(c, ch) == 0)
  }

  /** Nothing that was launched has been forgotten. */
  ghost predicate Accounted(c: Cell, ch: Child) { Stopped(c, ch) + Held(c, ch) == Launched(c, ch) }

  lemma StepBalanced(c: Cell, e: Event, d: Cell, ch: Child)
    requires Moves(c, e, d) && Balanced(c, ch)
    ensures Balanced(d, ch)
    ensures Accounted(c, ch) && (e.Started? ==> Handles(c.main, c.owned) == []) ==> Accounted(d, ch)
  {
    match e
    case Refused =>
    case Queried(lost) =>
    case RolledBack(launched) => RolledBackBalanced(c, launched, d, ch);
    case Started(id, launched, lost) => StartedBalanced(c, id, launched, lost, d, ch);
    case Halted(verified, lost) => HaltedBalanced(c, verified, lost, d, ch);
  }

  lemma RolledBackBalanced(c: Cell, launched: seq<Child>, d: Cell, ch: Child)
    requires Moves(c, RolledBack(launched), d) && Balanced(c, ch)
    ensures Balanced(d, ch) && (Accounted(c, ch) ==> Accounted(d, ch))
  {
    LaunchesBag(launched, ch);
    StopsBag(launched, ch);
    FreshBag(launched, c.serial, ch);
  }

  lemma StartedBalanced(c: Cell, id: string, launched: seq<Child>, lost: bool, d: Cell, ch: Child)
    requires Moves(c, Started(id, launched, lost), d) && Balanced(c, ch)
    ensures Balanced(d, ch) && (Accounted(c, ch) && Handles(c.main, c.owned) == [] ==> Accounted(d, ch))
  {
    LaunchesBag(launched, ch);
    FreshBag(launched, c.serial, ch);
    HandlesBag(launched, ch);
  }

  lemma HaltedBalanced(c: Cell, verified: bool, lost: bool, d: Cell, ch: Child)
    requires Moves(c, Halted(verified, lost), d) && Balanced(c, ch)
    ensures Balanced(d, ch) && (Accounted(c, ch) ==> Accounted(d, ch))
  {
    StopsBag(Handles(c.main, c.owned), ch);
    SweepsBag(ch);
  }

  lemma HandlesBag(launched: seq<Child>, ch: Child)
    requires launched != []
    ensures multiset(Handles(Some(launched[|launched| - 1]), launched[..|launched| - 1]))[ch] == multiset(launched)[ch]
  {
    assert launched == launched[..|launched| - 1] + [launched[|launched| - 1]];
  }

  lemma {:induction false} ChildrenBalanced(cells: seq<Cell>, events: seq<Event>, ch: Child)
    requires IsRun(cells, events)
    ensures Balanced(cells[|events|], ch)
    decreases |events|
  {
    if events != [] {
      RunInit(cells, events);
      var cs := cells[..|events|];
      ChildrenBalanced(cs, events[..|events| - 1], ch);
      assert cs[|events| - 1] == cells[|events| - 1];
      StepBalanced(cells[|events| - 1], events[|events| - 1], cells[|events|], ch);
    }
  }

  /** Between any two successful starts there is a stop. */
  predicate Tidy(events: seq<Event>) {
    forall i, j :: 0 <= i < j < |events| && events[i].Started? && events[j].Started? ==>
      exists k :: i < k < j && events[k].Halted?
  }

  /** The last start or stop is a start. */
  predicate Holding(events: seq<Event>) {
    if events == [] then false
    else
      var last := events[|events| - 1];
      last.Started? || (!last.Halted? && Holding(events[..|events| - 1]))
  }

  /** The manager holds handles exactly if the last start or stop is a start. */
  lemma {:induction false} HandlesFollow(cells: seq<Cell>, events: seq<Event>)
    requires IsRun(cells, events)
    ensures Handles(cells[|events|].main, cells[|events|].owned) != [] <==> Holding(events)
    decreases |events|
  {
    if events != [] {
      RunInit(cells, events);
      var cs := cells[..|events|];
      HandlesFollow(cs, events[..|events| - 1]);
      assert cs[|events| - 1] == cells[|events| - 1];
    }
  }

  lemma {:induction false} HoldingSince(events: seq<Event>)
    ensures Holding(events) <==> exists i :: 0 <= i < |events| && events[i].Started? && NoStopAfter(events, i)
    decreases |events|
  {
    if events != [] {
      var n := |events| - 1;
      var init := events[..n];
      HoldingSince(init);
      if events[n].Started? { assert NoStopAfter(events, n); }
      if Holding(init) && !events[n].Halted? {
        var i :| 0 <= i < n && init[i].Started? && NoStopAfter(init, i);
        assert NoStopAfter(events, i);
      }
      if i :| 0 <= i < |events| && events[i].Started? && NoStopAfter(events, i) {
        if i < n { assert NoStopAfter(init, i) && init[i].Started?; }
      }
    }
  }

  predicate NoStopAfter(events: seq<Event>, i: nat) {
    forall k :: i < k < |events| ==> !events[k].Halted?
  }

  /** A history is tidy exactly if no successful start follows one that was not stopped. */
  lemma TidyMeans(events: seq<Event>)
    ensures Tidy(events) <==> forall j :: 0 <= j < |events| && events[j].Started? ==> !Holding(events[..j])
  {
    forall j | 0 <= j < |events| && events[j].Started?
      ensures Holding(events[..j]) <==>
                exists i :: 0 <= i < j && events[i].Started? && forall k :: i < k < j ==> !events[k].Halted?
    {
      HoldingSince(events[..j]);
      if Holding(events[..j]) {
        var i :| 0 <= i < j && events[..j][i].Started? && NoStopAfter(events[..j], i);
        forall k | i < k < j ensures !events[k].Halted? { assert events[..j][k] == events[k]; }
      }
      if i :| 0 <= i < j && events[i].Started? && forall k :: i < k < j ==> !events[k].Halted? {
        assert events[..j][i] == events[i] && NoStopAfter(events[..j], i);
      }
    }
  }

  lemma TidyInit(events: seq<Event>)
    requires Tidy(events) && events != []
    ensures Tidy(events[..|events| - 1])
    ensures events[|events| - 1].Started? ==> !Holding(events[..|events| - 1])
  {
    var n := |events| - 1;
    var init := events[..n];
    TidyMeans(events);
    TidyMeans(init);
    forall j | 0 <= j < n && init[j].Started? ensures !Holding(init[..j]) {
      assert init[..j] == events[..j] && events[j].Started?;
    }
  }

  /** Then the launched children are exactly those stopped and those still held. */
  lemma {:induction false} ChildrenConserved(cells: seq<Cell>, events: seq<Event>, ch: Child)
    requires IsRun(cells, events) && Tidy(events)
    ensures Stopped(cells[|events|], ch) + Held(cells[|events|], ch) == Launched(cells[|events|], ch)
    decreases |events|
  {
    if events != [] {
      RunInit(cells, events);
      var cs, es := cells[..|events|], events[..|events| - 1];
      TidyInit(events);
      ChildrenConserved(cs, es, ch);
      ChildrenBalanced(cs, es, ch);
      HandlesFollow(cs, es);
      assert cs[|events| - 1] == cells[|events| - 1];
      StepBalanced(cells[|events| - 1], events[|events| - 1], cells[|events|], ch);
    }
  }

  /** Launched, never stopped through a handle, and no handle left to stop it by. */
  ghost predicate Forgotten(c: Cell, ch: Child) {
    Launched(c, ch) == 1 && Stopped(c, ch) == 0 && Held(c, ch) == 0
  }

  /** A start that is not tidy forgets every child it still held. */
  lemma UntidyStartForgets(c: Cell, e: Event, d: Cell, ch: Child)
    requires Moves(c, e, d) && e.Started? && Balanced(c, ch) && Held(c, ch) > 0
    ensures Forgotten(d, ch)
  {
    LaunchesBag(e.launched, ch);
    FreshBag(e.launched, c.serial, ch);
    HandlesBag(e.launched, ch);
  }

  lemma ForgottenStep(c: Cell, e: Event, d: Cell, ch: Child)
    requires Moves(c, e, d) && Balanced(c, ch) && Forgotten(c, ch)
    ensures Forgotten(d, ch)
  {
    match e
    case Refused =>
    case Queried(lost) =>
    case RolledBack(launched) =>
      LaunchesBag(launched, ch);
      StopsBag(launched, ch);
      FreshBag(launched, c.serial, ch);
    case Started(id, launched, lost) =>
      LaunchesBag(launched, ch);
      FreshBag(launched, c.serial, ch);
      HandlesBag(launched, ch);
    case Halted(verified, lost) =>
      StopsBag(Handles(c.main, c.owned), ch);
      SweepsBag(ch);
  }

  lemma {:induction false} ForgottenForever(cells: seq<Cell>, events: seq<Event>, i: nat)
    requires IsRun(cells, events) && i < |events| && events[i].Started?
    requires Handles(cells[i].main, cells[i].owned) != []
    ensures Forgotten(cells[|events|], Handles(cells[i].main, cells[i].owned)[0])
    decreases |events|
  {
    var n := |events| - 1;
    var ch := Handles(cells[i].main, cells[i].owned)[0];
    RunInit(cells, events);
    var cs, es := cells[..|events|], events[..n];
    ChildrenBalanced(cs, es, ch);
    assert cs[n] == cells[n] && cs[i] == cells[i];
    if i < n {
      ForgottenForever(cs, es, i);
      ForgottenStep(cells[n], events[n], cells[n + 1], ch);
    } else {
      assert multiset(Handles(cells[i].main, cells[i].owned))[ch] > 0;
      UntidyStartForgets(cells[n], events[n], cells[n + 1], ch);
    }
  }

  lemma RunPrefix(cells: seq<Cell>, events: seq<Event>, n: nat)
    requires IsRun(cells, events) && n <= |events|
    ensures IsRun(cells[..n + 1], events[..n])
  {
    var cs, es := cells[..n + 1], events[..n];
    forall i | 0 <= i < |es| ensures StepAt(cs, es, i) {
      assert StepAt(cells, events, i);
    }
  }

  /** The children are accounted for by handles exactly in the tidy runs. */
  lemma ConservedIffTidy(cells: seq<Cell>, events: seq<Event>)
    requires IsRun(cells, events)
    ensures Tidy(events) <==> forall ch :: !Forgotten(cells[|events|], ch)
  {
    if Tidy(events) {
      forall ch ensures !Forgotten(cells[|events|], ch) {
        ChildrenConserved(cells, events, ch);
      }
    } else {
      TidyMeans(events);
      var i :| 0 <= i < |events| && events[i].Started? && Holding(events[..i]);
      RunPrefix(cells, events, i);
      HandlesFollow(cells[..i + 1], events[..i]);
      assert cells[..i + 1][i] == cells[i];
      ForgottenForever(cells, events, i);
    }
  }

  /** Starting again after the cell has died by itself is such a run. */
  lemma UntidyRun() returns (cells: seq<Cell>, events: seq<Event>)
    ensures IsRun(cells, events) && !Tidy(events)
  {
    var mark := SmsCursor.Cursor(0, 0, []);
    var first := SmsSession.Session("a", mark, None, 0, None, SmsSession.Running);
    var second := SmsSession.Session("b", mark, None, 1, None, SmsSession.Running);
    var x, y := Child(0, "OpenBTS"), Child(1, "OpenBTS");
    cells := [Cell(None, [], None, 0, []), Cell(Some(first), [], Some(x), 1, [Launch(x)]),
              Cell(Some(second), [], Some(y), 2, [Launch(x), Launch(y)])];
    events := [Started("a", [x], false), Started("b", [y], false)];
    assert Launches([x]) == [Launch(x)] && Launches([y]) == [Launch(y)];
    assert StepAt(cells, events, 0) && StepAt(cells, events, 1);
    assert events[0].Started? && events[1].Started?;
  }
}
