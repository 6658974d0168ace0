/**
 * Readiness detection in a child's output (internal/gsm/process_log.go): a
 * marker may be split over any number of writes, some of them short.
 */
module ProcessLog {
  import opened Common

  const MARKER: string := "system ready"

  predicate Contains(text: string, part: string) {
    exists i :: 0 <= i <= |text| - |part| && OccursAt(text, part, i)
  }

  predicate OccursAt(text: string, part: string, i: int)
    requires 0 <= i <= |text| - |part|
  {
    text[i..i + |part|] == part
  }

  datatype Detector = Detector(tail: string, seen: bool)

  const FRESH := Detector("", false)

  /** One write, of which the output has accepted `chunk`. */
  function Observe(w: Detector, chunk: string): Detector {
    if w.seen then w
    else
      var text := w.tail + chunk;
      if Contains(text, MARKER) then w.(seen := true)
      else if |text| >= |MARKER| then w.(tail := text[|text| - |MARKER| + 1..])
      else w.(tail := text)
  }

  function ObserveAll(chunks: seq<string>): Detector {
    if chunks == [] then FRESH
    else Observe(ObserveAll(chunks[..|chunks| - 1]), chunks[|chunks| - 1])
  }

  class ProcessLog {
    var tail: string
    var seen: bool
    /** How often the ready channel has been closed; a second time would panic. */
    var readyCloses: nat

    ghost predicate Valid()
      reads this
    {
      readyCloses == (if seen then 1 else 0)
    }

    constructor ()
      ensures Valid() && Detector(tail, seen) == FRESH && readyCloses == 0
    {
      tail, seen, readyCloses := "", false, 0;
    }

    /** The output accepts `n` bytes of `data`, possibly with an error. */
    method Write(data: string, n: nat)
      requires Valid() && n <= |data|
      modifies this
      ensures Valid() && readyCloses <= 1
      ensures Detector(tail, seen) == Observe(old(Detector(tail, seen)), data[..n])
    {
      if !seen {
        var text := tail + data[..n];
        if Contains(text, MARKER) {
          seen := true;
          readyCloses := readyCloses + 1;
        } else {
          if |text| >= |MARKER| {
            text := text[|text| - |MARKER| + 1..];
          }
          tail := text;
        }
      }
    }
  }

  /** `tail` is as much of the end of `all` as can begin a marker. */
  predicate IsTail(tail: string, all: string) {
    && |tail| == Min(|all|, |MARKER| - 1)
    && tail == all[|all| - |tail|..]
  }

  /** Looking at the retained tail and the new chunk is as good as looking at everything. */
  lemma TailSuffices(all: string, tail: string, chunk: string)
    requires IsTail(tail, all) && !Contains(all, MARKER)
    ensures Contains(all + chunk, MARKER) <==> Contains(tail + chunk, MARKER)
  {
    var skipped := |all| - |tail|;
    assert tail + chunk == (all + chunk)[skipped..];
    if Contains(all + chunk, MARKER) {
      var i :| 0 <= i <= |all + chunk| - |MARKER| && OccursAt(all + chunk, MARKER, i);
      if i < skipped {
        assert OccursAt(all, MARKER, i);
      } else {
        assert OccursAt(tail + chunk, MARKER, i - skipped);
      }
    }
    if Contains(tail + chunk, MARKER) {
      var i :| 0 <= i <= |tail + chunk| - |MARKER| && OccursAt(tail + chunk, MARKER, i);
      assert OccursAt(all + chunk, MARKER, i + skipped);
    }
  }

  lemma ContainsKept(all: string, chunk: string)
    requires Contains(all, MARKER)
    ensures Contains(all + chunk, MARKER)
  {
    var i :| 0 <= i <= |all| - |MARKER| && OccursAt(all, MARKER, i);
    assert OccursAt(all + chunk, MARKER, i);
  }

  /** However the output is split, the marker is seen exactly if the whole output contains it. */
  lemma {:induction false} StreamingDetection(chunks: seq<string>)
    ensures Follows(ObserveAll(chunks), Flatten(chunks))
    decreases |chunks|
  {
    if chunks == [] {
      assert Flatten(chunks) == "";
    } else {
      var init, last := chunks[..|chunks| - 1], chunks[|chunks| - 1];
      StreamingDetection(init);
      DetectionStep(Flatten(init), ObserveAll(init), last);
    }
  }

  ghost predicate ReadyAt(all: string, i: int) { 0 <= i <= |all| - 12 && all[i..i + 12] == "system ready" }

  lemma Occurrence(text: string, part: string, i: int)
    requires 0 <= i <= |text| - |part| && OccursAt(text, part, i)
    ensures Contains(text, part)
  {
  }

  /** Readiness is reported exactly if these words occur in everything written so far. */
  lemma SeenExactly(chunks: seq<string>, all: string)
    requires all == Flatten(chunks)
    ensures ObserveAll(chunks).seen <==> exists i :: ReadyAt(all, i)
  {
    StreamingDetection(chunks);
    ContainsReady(all);
  }

  lemma ContainsReady(all: string)
    ensures Contains(all, MARKER) <==> exists i :: ReadyAt(all, i)
  {
    if Contains(all, MARKER) {
      var i :| 0 <= i <= |all| - |MARKER| && OccursAt(all, MARKER, i);
      assert ReadyAt(all, i);
    }
    if exists i :: ReadyAt(all, i) {
      var i :| ReadyAt(all, i);
      Occurrence(all, MARKER, i);
    }
  }

  /** The detector has seen the marker, or knows all that matters of what it has seen. */
  predicate Follows(w: Detector, all: string) {
    && (w.seen <==> Contains(all, MARKER))
    && (!w.seen ==> IsTail(w.tail, all))
    && |w.tail| < |MARKER|
  }

  lemma DetectionStep(all: string, w: Detector, chunk: string)
    requires Follows(w, all)
    ensures Follows(Observe(w, chunk), all + chunk)
  {
    if w.seen {
      ContainsKept(all, chunk);
    } else {
      TailSuffices(all, w.tail, chunk);
      TailMoves(all, w.tail, chunk);
    }
  }

  lemma TailMoves(all: string, tail: string, chunk: string)
    requires IsTail(tail, all)
    ensures
      var text := tail + chunk;
      IsTail(if |text| >= |MARKER| then text[|text| - |MARKER| + 1..] else text, all + chunk)
  {
    var skipped := |all| - |tail|;
    assert tail + chunk == (all + chunk)[skipped..];
  }
}
