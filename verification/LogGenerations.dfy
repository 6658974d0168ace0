/**
 * Process generations in the queue's log (internal/parser/sms.go): restart
 * lines split the log, and events on different sides never merge.
 */
module LogGenerations {
  import opened Common
  import opened SmsRecord
  import opened LogMerge

  // ---- Restart positions ---------------------------------------------------------------

  predicate StrictlyAscending(s: seq<nat>) {
    forall i, j :: 0 <= i < j < |s| ==> s[i] < s[j]
  }

  /** The offset at which a line begins. */
  function Offset(lines: seq<Text>, n: nat): nat
    requires n <= |lines|
  {
    |Flatten(lines[..n])|
  }

  lemma OffsetNext(lines: seq<Text>, n: nat)
    requires n < |lines|
    ensures Offset(lines, n + 1) == Offset(lines, n) + |lines[n]|
  {
    assert lines[..n + 1][..n] == lines[..n];
  }

  /** The offsets of the restart lines among the first `n` lines. */
  function RestartsUpTo(lines: seq<Text>, isRestart: Text -> bool, n: nat): seq<nat>
    requires n <= |lines|
  {
    if n == 0 then []
    else RestartsUpTo(lines, isRestart, n - 1) + (if isRestart(lines[n - 1]) then [Offset(lines, n - 1)] else [])
  }

  function Restarts(lines: seq<Text>, isRestart: Text -> bool): seq<nat> { RestartsUpTo(lines, isRestart, |lines|) }

  /** restartPositions, over lines that still carry their line ends. */
  method RestartPositions(lines: seq<Text>, isRestart: Text -> bool) returns (positions: seq<nat>)
    requires !isRestart([])
    ensures positions == Restarts(lines, isRestart) && StrictlyAscending(positions)
    ensures forall p :: p in positions <==> exists n :: 0 <= n < |lines| && isRestart(lines[n]) && p == Offset(lines, n)
  {
    positions := [];
    var position := 0;
    var n := 0;
    while n < |lines|
      invariant 0 <= n <= |lines| && position == Offset(lines, n)
      invariant positions == RestartsUpTo(lines, isRestart, n)
      invariant StrictlyAscending(positions) && forall p :: p in positions ==> p < position
      invariant forall p :: p in positions ==> exists m :: 0 <= m < n && isRestart(lines[m]) && p == Offset(lines, m)
      invariant forall m :: 0 <= m < n && isRestart(lines[m]) ==> Offset(lines, m) in positions
    {
      OffsetNext(lines, n);
      if isRestart(lines[n]) {
        assert |lines[n]| > 0;
        assert forall i :: 0 <= i < |positions| ==> positions[i] in positions;
        positions := positions + [position];
      }
      position := position + |lines[n]|;
      n := n + 1;
    }
  }

  // ---- Generations ---------------------------------------------------------------------

  /** The number of restart positions at or before an event. */
  function CountUpTo(restarts: seq<nat>, position: nat): (n: nat)
    ensures n <= |restarts|
  {
    if restarts == [] then 0
    else CountUpTo(restarts[..|restarts| - 1], position) + (if restarts[|restarts| - 1] <= position then 1 else 0)
  }

  lemma {:induction false} CountOfSplit(restarts: seq<nat>, position: nat, k: nat)
    requires k <= |restarts|
    requires forall i :: 0 <= i < k ==> restarts[i] <= position
    requires forall i :: k <= i < |restarts| ==> restarts[i] > position
    ensures CountUpTo(restarts, position) == k
    decreases |restarts|
  {
    if restarts != [] {
      CountOfSplit(restarts[..|restarts| - 1], position, if k == |restarts| then k - 1 else k);
    }
  }

  /** generationAt: binary search for the first restart after the event. */
  method GenerationAt(restarts: seq<nat>, position: nat) returns (generation: nat)
    requires StrictlyAscending(restarts)
    ensures generation == CountUpTo(restarts, position)
  {
    var i, j := 0, |restarts|;
    while i < j
      invariant 0 <= i <= j <= |restarts|
      invariant forall k :: 0 <= k < i ==> restarts[k] <= position
      invariant forall k :: j <= k < |restarts| ==> restarts[k] > position
    {
      var h := (i + j) / 2;
      if !(restarts[h] > position) {
        i := h + 1;
      } else {
        j := h;
      }
    }
    CountOfSplit(restarts, position, i);
    generation := i;
  }

  predicate RestartBetween(restarts: seq<nat>, p: nat, q: nat) {
    exists i :: 0 <= i < |restarts| && p < restarts[i] <= q
  }

  /** Two events are of one generation exactly if no restart lies between them. */
  lemma {:induction false} SameGeneration(restarts: seq<nat>, p: nat, q: nat)
    requires p <= q
    ensures CountUpTo(restarts, p) <= CountUpTo(restarts, q)
    ensures CountUpTo(restarts, p) == CountUpTo(restarts, q) <==> !RestartBetween(restarts, p, q)
    decreases |restarts|
  {
    if restarts != [] {
      var init, last := restarts[..|restarts| - 1], restarts[|restarts| - 1];
      SameGeneration(init, p, q);
      assert forall i :: 0 <= i < |init| ==> init[i] == restarts[i];
    }
  }

  // ---- Identities ------------------------------------------------------------------------

  /** strconv.Itoa for a generation. */
  function Itoa(n: nat): (t: Text)
    ensures |t| > 0 && AllDigits(t)
  {
    if n < 10 then [48 + n] else Itoa(n / 10) + [48 + n % 10]
  }

  lemma {:induction false} ItoaInjective(m: nat, n: nat)
    requires Itoa(m) == Itoa(n)
    ensures m == n
    decreases m
  {
    var s, t := Itoa(m), Itoa(n);
    assert s[|s| - 1] == t[|t| - 1];
    if m >= 10 && n >= 10 {
      assert s[..|s| - 1] == Itoa(m / 10) && t[..|t| - 1] == Itoa(n / 10);
      ItoaInjective(m / 10, n / 10);
    }
  }

  function ScopedIdentity(generation: nat, qtag: Text): Text {
    Itoa(generation) + [0] + qtag
  }

  /** Different generations or queue tags give different identities. */
  lemma ScopedIdentityInjective(g: nat, s: Text, h: nat, t: Text)
    ensures ScopedIdentity(g, s) == ScopedIdentity(h, t) <==> g == h && s == t
  {
    var a, b := ScopedIdentity(g, s), ScopedIdentity(h, t);
    if a == b {
      var m, n := |Itoa(g)|, |Itoa(h)|;
      assert a[m] == 0 && b[n] == 0;
      assert forall k :: 0 <= k < m ==> a[k] == Itoa(g)[k] != 0;
      assert forall k :: 0 <= k < n ==> b[k] == Itoa(h)[k] != 0;
      assert m == n;
      assert a[..m] == Itoa(g) && b[..n] == Itoa(h) && a[m + 1..] == s && b[n + 1..] == t;
      ItoaInjective(g, h);
    }
  }

  // ---- The whole parse ---------------------------------------------------------------------

  /** An event that one of the two scanners has recognised, at the offset of its line. */
  datatype Event = Event(qtag: Text, position: nat, sms: Sms, structured: bool)

  function Scoped(restarts: seq<nat>, e: Event): Candidate {
    Candidate(ScopedIdentity(CountUpTo(restarts, e.position), e.qtag), e.position, e.sms, e.structured)
  }

  function ScopedAll(restarts: seq<nat>, events: seq<Event>): (cs: seq<Candidate>)
    ensures |cs| == |events| && forall i :: 0 <= i < |cs| ==> cs[i] == Scoped(restarts, events[i])
  {
    seq(|events|, i requires 0 <= i < |events| => Scoped(restarts, events[i]))
  }

  /** Two events get one identity exactly if they share a queue tag and no restart separates them. */
  lemma MergedIff(restarts: seq<nat>, e: Event, f: Event)
    requires e.position <= f.position
    ensures Scoped(restarts, e).identity == Scoped(restarts, f).identity <==>
              e.qtag == f.qtag && !RestartBetween(restarts, e.position, f.position)
  {
    SameGeneration(restarts, e.position, f.position);
    ScopedIdentityInjective(CountUpTo(restarts, e.position), e.qtag, CountUpTo(restarts, f.position), f.qtag);
  }

  /**
   * ParseSmqueueLog, given the events that the NOTICE scanner and the legacy
   * delivery scanner have recognised.
   */
  method ParseSmqueueLog(lines: seq<Text>, isRestart: Text -> bool, notices: seq<Event>, deliveries: seq<Event>)
    returns (out: seq<Sms>)
    requires !isRestart([])
    ensures
      var sorted := StableSort(ScopedAll(Restarts(lines, isRestart), notices + deliveries));
      && |out| == |Identities(sorted)|
      && forall k :: 0 <= k < |out| ==> MessageOf(sorted, Identities(sorted)[k], out[k])
  {
    var positions := RestartPositions(lines, isRestart);
    var events := notices + deliveries;
    var candidates: seq<Candidate> := [];
    var i := 0;
    while i < |events|
      invariant 0 <= i <= |events| && |candidates| == i
      invariant forall k :: 0 <= k < i ==> candidates[k] == Scoped(positions, events[k])
    {
      var generation := GenerationAt(positions, events[i].position);
      var identity := ScopedIdentity(generation, events[i].qtag);
      candidates := candidates + [Candidate(identity, events[i].position, events[i].sms, events[i].structured)];
      i := i + 1;
    }
    assert candidates == ScopedAll(positions, events);
    out := MergeCandidates(candidates);
  }
}
