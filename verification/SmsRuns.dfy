/**
 * Whole runs of the SMS session window: any number of begins, commits, ends,
 * clears and reads, interleaved with any activity of the collector.
 */
module SmsRuns {
  import opened Common
  import opened LineWindow
  import opened LogFiles
  import opened SmsCursor
  import opened SmsOutcome
  import opened SmsSession
  import opened SmsWindow

  ghost predicate IsRun(states: seq<System>, events: seq<Event>) {
    && |states| == |events| + 1
    && SystemInv(states[0])
    && forall i :: 0 <= i < |events| ==> StepAt(states, events, i)
  }

  ghost predicate StepAt(states: seq<System>, events: seq<Event>, i: int) {
    0 <= i < |events| && |states| == |events| + 1 && Next(states[i], events[i], states[i + 1])
  }

  /** Only a new begin or a clear takes a session away. */
  predicate Replaces(e: Event) {
    e.Begin? || e.Clear?
  }

  predicate Uninterrupted(events: seq<Event>, i: nat, j: nat)
    requires j <= |events|
  {
    forall k :: i <= k < j ==> !Replaces(events[k])
  }

  lemma StateInv(states: seq<System>, events: seq<Event>, i: nat)
    requires IsRun(states, events) && i <= |events|
    ensures SystemInv(states[i])
  {
    if i > 0 { assert StepAt(states, events, i - 1); }
  }

  /** What a session keeps while nothing replaces it. */
  ghost predicate Continues(s: System, t: System) {
    && SystemInv(s) && SystemInv(t) && Later(s.d, t.d)
    && (s.session.Some? ==> t.session.Some? && SessionKept(s, t))
  }

  ghost predicate SessionKept(s: System, t: System)
    requires SystemInv(s) && SystemInv(t) && s.session.Some? && t.session.Some?
  {
    var o, n := s.session.value, t.session.value;
    && n.id == o.id && n.start == o.start && n.started == o.started
    && (o.ended.Some? ==> n.ended == o.ended && n.end == o.end)
    && (o.state == BoundaryLost ==> n.state == BoundaryLost)
    && (n.end.Some? && o.end.None? ==> |Stream(s.d)| <= Pos(t.d, n.end.value))
  }

  lemma NextContinues(s: System, e: Event, t: System)
    requires Next(s, e, t) && !Replaces(e)
    ensures Continues(s, t)
  {
  }

  lemma ContinuesTransitive(s: System, t: System, u: System)
    requires Continues(s, t) && Continues(t, u)
    ensures Continues(s, u)
  {
    LaterTransitive(s.d, t.d, u.d);
    StreamGrows(s.d, t.d);
    if s.session.Some? && t.session.value.end.Some? {
      SoundStable(t.d, u.d, t.session.value.end.value);
    }
  }

  lemma {:induction false} RunContinues(states: seq<System>, events: seq<Event>, i: nat, j: nat)
    requires IsRun(states, events) && i <= j <= |events| && Uninterrupted(events, i, j)
    ensures Continues(states[i], states[j])
    decreases j - i
  {
    StateInv(states, events, i);
    if i == j {
      LaterReflexive(states[i].d);
    } else {
      RunContinues(states, events, i, j - 1);
      assert StepAt(states, events, j - 1);
      NextContinues(states[j - 1], events[j - 1], states[j]);
      ContinuesTransitive(states[i], states[j - 1], states[j]);
    }
  }

  lemma {:induction false} RunLater(states: seq<System>, events: seq<Event>, i: nat, j: nat)
    requires IsRun(states, events) && i <= j <= |events|
    ensures SystemInv(states[i]) && SystemInv(states[j]) && Later(states[i].d, states[j].d)
    decreases j - i
  {
    StateInv(states, events, i);
    if i == j {
      LaterReflexive(states[i].d);
    } else {
      RunLater(states, events, i, j - 1);
      assert StepAt(states, events, j - 1);
      LaterTransitive(states[i].d, states[j - 1].d, states[j].d);
    }
  }

  ghost predicate Lost(s: System) {
    s.session.Some? && s.session.value.state == BoundaryLost
  }

  /** A lost boundary is left only by a clear or a new begin, and until then every read is empty. */
  lemma LostIsFinal(states: seq<System>, events: seq<Event>, i: nat, j: nat)
    requires IsRun(states, events) && i <= j <= |events| && Lost(states[i])
    ensures Lost(states[j]) || exists k :: i <= k < j && Replaces(events[k])
    ensures Uninterrupted(events, i, j) && j < |events| && events[j].Read? && events[j].max > 0 ==>
              events[j].reply.data == [] && events[j].reply.truncated && events[j].reply.state == Some(BoundaryLost)
  {
    if Uninterrupted(events, i, j) {
      RunContinues(states, events, i, j);
      if j < |events| { assert StepAt(states, events, j); }
    }
  }

  predicate AnsweredRead(e: Event) { e.Read? && Answered(e.reply) }

  /** Two answered reads of the same session. */
  ghost predicate ReadPair(states: seq<System>, events: seq<Event>, i: nat, j: nat) {
    && IsRun(states, events) && i < j < |events| && Uninterrupted(events, i, j)
    && AnsweredRead(events[i]) && AnsweredRead(events[j])
  }

  /** The answer of a read, in terms of the stream of a later state. */
  ghost predicate Told(s: System, e: Event, t: System, later: System) {
    && e.Read? && e.max > 0 && s.session.Some? && t.session.Some?
    && t.session.value.start == s.session.value.start && t.session.value.end == s.session.value.end
    && |Stream(t.d)| <= |Stream(later.d)| && e.cut.end <= |Stream(t.d)|
    && var o := s.session.value;
       && Accepted(later.d, o.start, o.end, e.max, e.cut, e.reply.data, e.reply.truncated)
       && SampleSaw(s.d, t.d, e.sample, o.start, o.end, e.cut)
  }

  lemma ReadTold(s: System, e: Event, t: System, later: System)
    requires Next(s, e, t) && AnsweredRead(e) && SystemInv(later) && Later(t.d, later.d)
    ensures Told(s, e, t, later)
  {
    var o := s.session.value;
    SoundStable(s.d, t.d, o.start);
    if o.end.Some? { SoundStable(s.d, t.d, o.end.value); }
    AcceptedStable(t.d, later.d, o.start, o.end, e.max, e.cut, e.reply.data, e.reply.truncated);
    StreamGrows(t.d, later.d);
  }

  lemma RunTold(states: seq<System>, events: seq<Event>, i: nat)
    requires IsRun(states, events) && i < |events| && AnsweredRead(events[i])
    ensures Told(states[i], events[i], states[i + 1], states[|events|])
  {
    RunLater(states, events, i + 1, |events|);
    assert StepAt(states, events, i);
    ReadTold(states[i], events[i], states[i + 1], states[|events|]);
  }

  /** Without a gap the answer is the line window of one piece of the stream. */
  lemma WholeTold(s: System, e: Event, t: System, later: System)
    requires Told(s, e, t, later) && e.cut.gap == e.cut.resume
    ensures
      var a, startsLine := Pos(later.d, s.session.value.start), StartsLine(s.session.value.start);
      && a <= e.cut.end
      && e.reply.data == Window(Stream(later.d)[a..e.cut.end], startsLine, e.max)
      && e.reply.truncated == (e.cut.end - a > e.max)
  {
    Contiguous(Stream(later.d), Pos(later.d, s.session.value.start), e.cut.gap, e.cut.end);
  }

  lemma StoppedHasEnd(states: seq<System>, events: seq<Event>, i: nat)
    requires IsRun(states, events) && i <= |events|
    requires states[i].session.Some? && states[i].session.value.state == Stopped
    ensures states[i].session.value.end.Some?
  {
    StateInv(states, events, i);
  }

  /** A stopped window answers every later read alike, whatever is renamed while they read. */
  lemma StoppedReadsAgree(states: seq<System>, events: seq<Event>, i: nat, j: nat)
    requires ReadPair(states, events, i, j)
    requires states[i].session.Some? && states[i].session.value.state == Stopped
    requires events[i].max == events[j].max
    ensures events[i].reply.data == events[j].reply.data && events[i].reply.truncated == events[j].reply.truncated
  {
    StoppedHasEnd(states, events, i);
    RunContinues(states, events, i, j);
    RunTold(states, events, i);
    RunTold(states, events, j);
    WholeTold(states[i], events[i], states[i + 1], states[|events|]);
    WholeTold(states[j], events[j], states[j + 1], states[|events|]);
  }

  /** If a later read is answered at all, the earlier one skipped nothing. */
  lemma EarlierIsWhole(states: seq<System>, events: seq<Event>, i: nat, j: nat)
    requires ReadPair(states, events, i, j)
    ensures events[i].cut.gap == events[i].cut.resume
  {
    AnsweredFacts(states, events, i);
    StartStillLinked(states, events, i, j);
    RunLater(states, events, i + 1, j);
    LinkedBefore(states[i + 1].d, states[j].d, states[i].session.value.start.id);
  }

  lemma AnsweredFacts(states: seq<System>, events: seq<Event>, i: nat)
    requires IsRun(states, events) && i < |events| && AnsweredRead(events[i])
    ensures states[i].session.Some? && states[i].session.value.start.id < |states[i + 1].d.files|
    ensures Linked(states[i].d, states[i].session.value.start.id)
    ensures Linked(states[i + 1].d, states[i].session.value.start.id) ==> events[i].cut.gap == events[i].cut.resume
  {
    RunTold(states, events, i);
    RunLater(states, events, i, i + 1);
    SoundStable(states[i].d, states[i + 1].d, states[i].session.value.start);
  }

  lemma StartStillLinked(states: seq<System>, events: seq<Event>, i: nat, j: nat)
    requires ReadPair(states, events, i, j) && states[i].session.Some?
    ensures Linked(states[j].d, states[i].session.value.start.id)
  {
    AnsweredFacts(states, events, j);
    RunContinues(states, events, i, j);
  }

  /** Everything up to `e` is part of what was read, if it belongs to the session. */
  predicate Within(e: nat, cut: Cut) { e <= cut.gap || (cut.gap == cut.resume && e <= cut.end) }

  /** The deciding attempt of the read was overtaken. */
  ghost predicate IsOvertaken(s: System, e: Event) {
    && e.Read? && s.session.Some? && Inv(e.sample.begun)
    && Overtaken(e.sample.begun, e.sample.env, s.session.value.start, s.session.value.end)
  }

  /** The read was not overtaken, or `upTo` lies within the first file of its session. */
  ghost predicate Keeps(s: System, e: Event, later: System, upTo: nat) {
    IsOvertaken(s, e) ==>
      s.session.value.start.id < |later.d.files| && upTo <= Base(later.d, s.session.value.start.id + 1)
  }

  /**
   * A later answer covers everything an earlier one has seen if and only if it
   * was not overtaken, or the earlier one had not gone beyond the first file.
   */
  lemma CutsGrow(states: seq<System>, events: seq<Event>, i: nat, j: nat)
    requires ReadPair(states, events, i, j)
    ensures Within(events[i].cut.end, events[j].cut) <==>
              Keeps(states[j], events[j], states[|events|], events[i].cut.end)
  {
    RunTold(states, events, i);
    RunTold(states, events, j);
    AfterRead(states, events, i, j);
    LaterCut(states[i], events[i], states[i + 1], states[j], events[j], states[j + 1], states[|events|]);
  }

  /** An overtaken answer covers exactly what the first file of its session holds. */
  lemma OvertakenCovers(s: System, e: Event, t: System, later: System, upTo: nat)
    requires Told(s, e, t, later) && IsOvertaken(s, e) && SystemInv(t) && Later(t.d, later.d)
    ensures Within(upTo, e.cut) <==> Keeps(s, e, later, upTo)
  {
    StreamGrows(t.d, later.d);
  }

  lemma AfterRead(states: seq<System>, events: seq<Event>, i: nat, j: nat)
    requires ReadPair(states, events, i, j)
    ensures Continues(states[i + 1], states[j])
    ensures SystemInv(states[|events|]) && Later(states[j].d, states[|events|].d)
    ensures SystemInv(states[j + 1]) && Later(states[j + 1].d, states[|events|].d)
  {
    RunContinues(states, events, i + 1, j);
    RunLater(states, events, j, |events|);
    RunLater(states, events, j + 1, |events|);
  }

  lemma LaterCut(s: System, e: Event, t: System, s': System, e': Event, t': System, later: System)
    requires Told(s, e, t, later) && Told(s', e', t', later) && Continues(t, s')
    requires SystemInv(later) && Later(s'.d, later.d) && SystemInv(t') && Later(t'.d, later.d)
    ensures Within(e.cut.end, e'.cut) <==> Keeps(s', e', later, e.cut.end)
  {
    if IsOvertaken(s', e') {
      OvertakenCovers(s', e', t', later, e.cut.end);
    } else {
      StreamGrows(t.d, s'.d);
      if s'.session.value.end.Some? { SoundStable(s'.d, later.d, s'.session.value.end.value); }
    }
  }

  /** Everything in `s[p..q]` is part of what was read. */
  ghost predicate ShowsAll(cut: Cut, p: nat, q: nat) { forall k: nat :: p <= k < q ==> SeenAt(cut, k) }

  /**
   * While nothing is cut, a later read covers what an earlier one has shown,
   * which is the piece from `p` to `q` of the stream, if and only if it was not
   * overtaken or that piece ends within the first file of the session; and then
   * the earlier answer is a prefix of the later one.
   */
  lemma ReadsGrow(states: seq<System>, events: seq<Event>, i: nat, j: nat) returns (p: nat, q: nat)
    requires ReadPair(states, events, i, j)
    requires !events[i].reply.truncated && !events[j].reply.truncated
    ensures Shown(states[i], events[i], states[|events|], p, q)
    ensures ShowsAll(events[j].cut, p, q) <==> p == q || Keeps(states[j], events[j], states[|events|], q)
    ensures p == q || Keeps(states[j], events[j], states[|events|], q) ==> events[i].reply.data <= events[j].reply.data
  {
    RunTold(states, events, i);
    RunTold(states, events, j);
    AfterRead(states, events, i, j);
    EarlierIsWhole(states, events, i, j);
    CutsGrow(states, events, i, j);
    p, q := ShownBy(states[i], events[i], states[i + 1], states[|events|]);
    ShownLater(states[i], events[i], states[i + 1], states[j], events[j], states[j + 1], states[|events|], p, q);
  }

  /** `s[p..q]` are the complete lines of `s[a..e]`. */
  ghost predicate PieceAt(s: seq<byte>, a: nat, e: nat, startsLine: bool, p: nat, q: nat) {
    a <= p <= q <= e <= |s| && Bounds(s[..e], a, startsLine, p, q)
  }

  /** What an uncut answer without a gap has shown. */
  ghost predicate Shown(s: System, e: Event, later: System, p: nat, q: nat) {
    && e.Read? && e.max > 0 && s.session.Some? && s.session.value.start.id < |later.d.files|
    && var a, stream := Pos(later.d, s.session.value.start), Stream(later.d);
       && PieceAt(stream, a, e.cut.end, StartsLine(s.session.value.start), p, q) && e.reply.data == stream[p..q]
  }

  lemma ShownBy(s: System, e: Event, t: System, later: System) returns (p: nat, q: nat)
    requires Told(s, e, t, later) && e.cut.gap == e.cut.resume && !e.reply.truncated
    ensures Shown(s, e, later, p, q)
  {
    WholeTold(s, e, t, later);
    p, q := PieceBounds(Stream(later.d), Pos(later.d, s.session.value.start), e.cut.end,
                       StartsLine(s.session.value.start), e.max);
  }

  lemma ShownLater(s: System, e: Event, t: System, s': System, e': Event, t': System, later: System, p: nat, q: nat)
    requires Told(s, e, t, later) && Told(s', e', t', later) && Continues(t, s') && Shown(s, e, later, p, q)
    requires SystemInv(later) && Later(s'.d, later.d) && SystemInv(t') && Later(t'.d, later.d)
    requires Within(e.cut.end, e'.cut) <==> Keeps(s', e', later, e.cut.end)
    requires !e'.reply.truncated
    ensures ShowsAll(e'.cut, p, q) <==> p == q || Keeps(s', e', later, q)
    ensures p == q || Keeps(s', e', later, q) ==> e.reply.data <= e'.reply.data
  {
    if p < q {
      if IsOvertaken(s', e') {
        OvertakenCovers(s', e', t', later, q);
        StreamGrows(t.d, s'.d);
        OvertakenShows(s', e', later, p, q, |Stream(t.d)|);
      } else {
        assert Within(q, e'.cut);
      }
      if Within(q, e'.cut) { ShownGrows(s, e, s', e', t', later, p, q); }
    } else {
      assert e.reply.data == [];
    }
  }

  lemma ShownGrows(s: System, e: Event, s': System, e': Event, t': System, later: System, p: nat, q: nat)
    requires Shown(s, e, later, p, q) && Told(s', e', t', later) && !e'.reply.truncated && Within(q, e'.cut)
    requires s'.session.value.start == s.session.value.start
    ensures e.reply.data <= e'.reply.data
  {
    GrowingWindow(Stream(later.d), Pos(later.d, s.session.value.start), e.cut.end, StartsLine(s.session.value.start),
                  p, q, e'.cut, e'.max);
  }

  /** An overtaken read shows a piece that had been logged before it exactly if the piece ends in the first file. */
  lemma OvertakenShows(s: System, e: Event, later: System, p: nat, q: nat, before: nat)
    requires s.session.Some? && e.Read? && IsOvertaken(s, e) && p < q <= before <= |Stream(s.d)|
    requires e.cut.gap <= e.cut.resume && !SeenAt(e.cut, e.cut.gap)
    requires e.cut.end <= e.cut.gap || |Stream(s.d)| <= e.cut.resume
    ensures ShowsAll(e.cut, p, q) <==> q <= e.cut.gap
  {
    if q > e.cut.gap {
      var k: nat := if p < e.cut.gap then e.cut.gap else p;
      assert !SeenAt(e.cut, k);
    }
  }

  lemma GrowingWindow(s: seq<byte>, a: nat, e: nat, startsLine: bool, p: nat, q: nat, cut: Cut, max: nat)
    requires a <= cut.gap <= cut.resume <= cut.end <= |s| && PieceAt(s, a, e, startsLine, p, q) && Within(q, cut)
    requires |s[a..cut.gap] + s[cut.resume..cut.end]| <= max
    ensures s[p..q] <= Window(s[a..cut.gap] + s[cut.resume..cut.end], startsLine, max)
  {
    SeenPrefix(s, a, q, cut);
    WindowAgree(s, a, e, s[a..cut.gap] + s[cut.resume..cut.end], startsLine, max, p, q);
  }

  lemma SeenPrefix(s: seq<byte>, a: nat, q: nat, cut: Cut)
    requires a <= cut.gap <= cut.resume <= cut.end <= |s| && a <= q <= |s| && Within(q, cut)
    ensures q - a <= |s[a..cut.gap] + s[cut.resume..cut.end]|
    ensures (s[a..cut.gap] + s[cut.resume..cut.end])[..q - a] == s[a..q]
  {
    if q > cut.gap {
      Contiguous(s, a, cut.gap, cut.end);
      PrefixOfSlice(s, a, cut.end, q - a);
    } else {
      PrefixOfSlice(s, a, cut.gap, q - a);
      assert (s[a..cut.gap] + s[cut.resume..cut.end])[..q - a] == s[a..cut.gap][..q - a];
    }
  }

  /**
   * Scope over a whole run: whatever a read returns was logged after the begin
   * of its session and, if the session was ended meanwhile, before that end.
   */
  lemma RunScope(states: seq<System>, events: seq<Event>, b: nat, i: nat) returns (at: seq<nat>)
    requires IsRun(states, events) && b < i < |events| && events[b].Begin? && Uninterrupted(events, b + 1, i)
    requires events[i].Read? && Answered(events[i].reply)
    ensures |at| == |events[i].reply.data|
    ensures forall k :: 0 <= k < |at| ==>
              |Stream(states[b].d)| <= at[k] < |Stream(states[i + 1].d)|
              && Stream(states[i + 1].d)[at[k]] == events[i].reply.data[k]
    ensures forall k, m :: 0 <= k < m < |at| ==> at[k] < at[m]
    ensures forall k, m :: 0 <= k < |at| && b < m < i && events[m].End? ==> at[k] < |Stream(states[m + 1].d)|
  {
    BeginBound(states, events, b, i);
    assert StepAt(states, events, i);
    at := ReadScope(states[i], events[i], states[i + 1]);
    forall m | b < m < i && events[m].End?
      ensures forall k :: 0 <= k < |at| ==> at[k] < |Stream(states[m + 1].d)|
    {
      EndBounds(states, events, b, m, i);
    }
  }

  /** One answered read: where each of its bytes lies. */
  lemma ReadScope(s: System, e: Event, t: System) returns (at: seq<nat>)
    requires Next(s, e, t) && e.Read? && Answered(e.reply)
    ensures s.session.Some? && s.session.value.start.id < |t.d.files|
    ensures s.session.value.end.Some? ==> s.session.value.end.value.id < |t.d.files|
    ensures |at| == |e.reply.data|
    ensures forall k :: 0 <= k < |at| ==> Pos(t.d, s.session.value.start) <= at[k] < |Stream(t.d)|
    ensures forall k :: 0 <= k < |at| ==> Stream(t.d)[at[k]] == e.reply.data[k]
    ensures s.session.value.end.Some? ==> forall k :: 0 <= k < |at| ==> at[k] < Pos(t.d, s.session.value.end.value)
    ensures forall k, m :: 0 <= k < m < |at| ==> at[k] < at[m]
  {
    var o := s.session.value;
    at := ScopeSafe(t.d, o.start, o.end, e.max, e.cut, e.reply.data, e.reply.truncated);
  }

  lemma BeginBound(states: seq<System>, events: seq<Event>, b: nat, i: nat)
    requires IsRun(states, events) && b < i < |events| && events[b].Begin? && Uninterrupted(events, b + 1, i)
    ensures states[i].session.Some? && states[i].session.value.start.id < |states[i + 1].d.files|
    ensures |Stream(states[b].d)| <= Pos(states[i + 1].d, states[i].session.value.start)
  {
    assert StepAt(states, events, b);
    RunContinues(states, events, b + 1, i);
    RunLater(states, events, b + 1, i + 1);
    SoundStable(states[b + 1].d, states[i + 1].d, states[i].session.value.start);
  }

  lemma BegunHasSession(states: seq<System>, events: seq<Event>, b: nat, m: nat)
    requires IsRun(states, events) && b < m <= |events| && events[b].Begin? && Uninterrupted(events, b + 1, m)
    ensures states[m].session.Some?
  {
    assert StepAt(states, events, b);
    RunContinues(states, events, b + 1, m);
  }

  lemma EndBounds(states: seq<System>, events: seq<Event>, b: nat, m: nat, i: nat)
    requires IsRun(states, events) && b < m < i < |events| && events[b].Begin? && Uninterrupted(events, b + 1, i)
    requires events[m].End? && events[i].Read? && Answered(events[i].reply)
    ensures states[i].session.Some? && states[i].session.value.end.Some?
    ensures Inv(states[i + 1].d) && states[i].session.value.end.value.id < |states[i + 1].d.files|
    ensures Pos(states[i + 1].d, states[i].session.value.end.value) <= |Stream(states[m + 1].d)|
  {
    BegunHasSession(states, events, b, m);
    RunContinues(states, events, m + 1, i);
    assert StepAt(states, events, m) && StepAt(states, events, i);
    EndBound(states[m], states[m + 1], states[i], events[i], states[i + 1]);
  }

  lemma EndBound(m: System, ended: System, s: System, e: Event, t: System)
    requires m.session.Some? && Next(m, End, ended) && Continues(ended, s) && Next(s, e, t)
    requires e.Read? && Answered(e.reply)
    ensures s.session.Some? && s.session.value.end.Some?
    ensures s.session.value.end.value.id < |t.d.files|
    ensures Pos(t.d, s.session.value.end.value) <= |Stream(ended.d)|
  {
    var end := s.session.value.end.value;
    SoundStable(ended.d, s.d, end);
    SoundStable(s.d, t.d, end);
  }
}
