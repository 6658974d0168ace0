/**
 * Whole lines within a byte budget: how the SMS reader trims what it has read
 * (the end of readSMSSpanOnce in internal/gsm/sms_session.go).
 */
module LineWindow {
  import opened Common

  function IndexNL(b: seq<byte>): (p: int)
    ensures -1 <= p < |b|
    ensures p >= 0 ==> b[p] == NL
    ensures forall k :: 0 <= k < (if p < 0 then |b| else p) ==> b[k] != NL
  {
    if b == [] then -1
    else if b[0] == NL then 0
    else
      var rest := IndexNL(b[1..]);
      if rest < 0 then -1 else rest + 1
  }

  function LastIndexNL(b: seq<byte>): (p: int)
    ensures -1 <= p < |b|
    ensures p >= 0 ==> b[p] == NL
    ensures forall k :: p < k < |b| ==> b[k] != NL
  {
    if b == [] then -1
    else if b[|b| - 1] == NL then |b| - 1
    else LastIndexNL(b[..|b| - 1])
  }

  /** The trimming at the end of readSMSSpanOnce. */
  function KeepLines(b: seq<byte>, dropFirst: bool): seq<byte> {
    var first := IndexNL(b);
    var body := if !dropFirst then b else if first >= 0 then b[first + 1..] else [];
    body[..LastIndexNL(body) + 1]
  }

  function CutOf(size: nat, max: nat): nat { size - Min(size, max) }

  /** Whether the line at the cut is partial. */
  predicate DropAt(span: seq<byte>, cut: nat, startsLine: bool)
    requires cut <= |span|
  {
    if cut == 0 then !startsLine else span[cut - 1] != NL
  }

  /** The complete lines among the last `max` bytes of `span`. */
  function Window(span: seq<byte>, startsLine: bool, max: nat): seq<byte> {
    var cut := CutOf(|span|, max);
    KeepLines(span[cut..], DropAt(span, cut, startsLine))
  }

  /** `span[x..y]` is one complete line. */
  ghost predicate IsLine(span: seq<byte>, startsLine: bool, x: int, y: int) {
    && 0 <= x < y <= |span|
    && (if x == 0 then startsLine else span[x - 1] == NL)
    && span[y - 1] == NL
    && forall k :: x <= k < y - 1 ==> span[k] != NL
  }

  /** Byte `k` belongs to a complete line that starts at or after `cut`. */
  ghost predicate InLine(span: seq<byte>, startsLine: bool, cut: int, k: int) {
    exists x, y :: cut <= x <= k < y && IsLine(span, startsLine, x, y)
  }

  /** `span[p..q]` holds exactly the bytes of the complete lines that start at or after `cut`. */
  ghost predicate MadeOfLines(span: seq<byte>, startsLine: bool, cut: int, p: int, q: int) {
    forall k :: 0 <= k < |span| ==> (p <= k < q <==> InLine(span, startsLine, cut, k))
  }

  /**
   * What `Window` means: one contiguous piece of the span, at most `max` bytes
   * long, made of exactly the bytes of the complete lines after the cut.
   */
  lemma WindowMeaning(span: seq<byte>, startsLine: bool, max: nat) returns (p: nat, q: nat)
    ensures CutOf(|span|, max) <= p <= q <= |span| && Window(span, startsLine, max) == span[p..q]
    ensures |Window(span, startsLine, max)| <= max
    ensures MadeOfLines(span, startsLine, CutOf(|span|, max), p, q)
  {
    var cut := CutOf(|span|, max);
    p, q := WindowBounds(span, startsLine, max);
    forall k | 0 <= k < |span|
      ensures p <= k < q <==> InLine(span, startsLine, cut, k)
    {
      if p <= k < q {
        LineAround(span, startsLine, p, q, k);
      } else if InLine(span, startsLine, cut, k) {
        NoLineOutside(span, startsLine, cut, p, q, k);
      }
    }
  }

  /** `b[p..q]` runs from the first line start to the last newline, looking from `cut` on. */
  ghost predicate Bounds(b: seq<byte>, cut: nat, starts: bool, p: nat, q: nat) {
    && cut <= p <= q <= |b|
    && (starts ==> p == cut)
    && (!starts ==> p == |b| || (cut < p && b[p - 1] == NL))
    && (!starts ==> forall k :: cut <= k < p - 1 ==> b[k] != NL)
    && (p < q ==> b[q - 1] == NL)
    && (forall k :: q <= k < |b| ==> b[k] != NL)
  }

  lemma WindowBounds(span: seq<byte>, startsLine: bool, max: nat) returns (p: nat, q: nat)
    ensures
      var cut := CutOf(|span|, max);
      Bounds(span, cut, !DropAt(span, cut, startsLine), p, q)
    ensures Window(span, startsLine, max) == span[p..q]
  {
    var cut := CutOf(|span|, max);
    p, q := CutBounds(span, cut, DropAt(span, cut, startsLine));
  }

  lemma WindowSlice(span: seq<byte>, startsLine: bool, max: nat) returns (p: nat, q: nat)
    ensures CutOf(|span|, max) <= p <= q <= |span| && Window(span, startsLine, max) == span[p..q]
  {
    p, q := WindowBounds(span, startsLine, max);
  }

  lemma CutBounds(span: seq<byte>, cut: nat, drop: bool) returns (p: nat, q: nat)
    requires cut <= |span|
    ensures Bounds(span, cut, !drop, p, q) && KeepLines(span[cut..], drop) == span[p..q]
  {
    var p', q' := KeepLinesBounds(span[cut..], drop);
    p, q := cut + p', cut + q';
    BoundsShift(span, cut, !drop, p', q');
  }

  lemma BoundsShift(b: seq<byte>, cut: nat, starts: bool, p: nat, q: nat)
    requires cut <= |b| && Bounds(b[cut..], 0, starts, p, q)
    ensures Bounds(b, cut, starts, cut + p, cut + q) && b[cut..][p..q] == b[cut + p..cut + q]
  {
    assert forall k :: cut <= k < |b| ==> b[k] == b[cut..][k - cut];
  }

  lemma KeepLinesBounds(b: seq<byte>, drop: bool) returns (p: nat, q: nat)
    ensures Bounds(b, 0, !drop, p, q) && KeepLines(b, drop) == b[p..q]
  {
    var first := IndexNL(b);
    p := if !drop then 0 else if first >= 0 then first + 1 else |b|;
    assert b[0..] == b;
    q := BodyBounds(b, p);
  }

  lemma BodyBounds(b: seq<byte>, p: nat) returns (q: nat)
    requires p <= |b|
    ensures p <= q <= |b| && b[p..][..LastIndexNL(b[p..]) + 1] == b[p..q]
    ensures p < q ==> b[q - 1] == NL
    ensures forall k :: q <= k < |b| ==> b[k] != NL
  {
    var body := b[p..];
    var last := LastIndexNL(body);
    q := p + last + 1;
    SliceOfSlice(b, p, |b|, 0, last + 1);
    forall k | q <= k < |b| ensures b[k] != NL {
      assert b[k] == body[k - p];
    }
  }

  lemma NoLineOutside(span: seq<byte>, startsLine: bool, cut: nat, p: nat, q: nat, k: nat)
    requires k < |span| && InLine(span, startsLine, cut, k)
    requires cut <= |span| && Bounds(span, cut, !DropAt(span, cut, startsLine), p, q)
    ensures p <= k < q
  {
    var x, y :| cut <= x <= k < y && IsLine(span, startsLine, x, y);
    assert span[y - 1] == NL;
    assert x > 0 ==> x == cut || span[x - 1] == NL;
  }

  /** Between a line start and a newline, every byte lies in a complete line. */
  lemma LineAround(span: seq<byte>, startsLine: bool, p: nat, q: nat, k: nat)
    requires p <= k < q <= |span|
    requires if p == 0 then startsLine else span[p - 1] == NL
    requires span[q - 1] == NL
    ensures InLine(span, startsLine, p, k)
  {
    var x := p + LastIndexNL(span[p..k]) + 1;
    var y := k + IndexNL(span[k..q]) + 1;
    assert span[k..q][q - 1 - k] == NL;
    assert x > p ==> span[p..k][x - 1 - p] == NL;
    assert forall i :: x <= i < k ==> span[i] == span[p..k][i - p];
    assert forall i :: k <= i < y - 1 ==> span[i] == span[k..q][i - k];
    assert IsLine(span, startsLine, x, y);
  }

  /** Without a cut the window of `s[a..e]` is a piece of `s`. */
  lemma PieceBounds(s: seq<byte>, a: nat, e: nat, startsLine: bool, max: nat) returns (p: nat, q: nat)
    requires a <= e <= |s| && e - a <= max
    ensures a <= p <= q <= e && Bounds(s[..e], a, startsLine, p, q) && Window(s[a..e], startsLine, max) == s[p..q]
  {
    p, q := CutBounds(s[..e], a, !startsLine);
    PieceSlices(s, a, e, p, q);
  }

  lemma PieceSlices(s: seq<byte>, a: nat, e: nat, p: nat, q: nat)
    requires a <= e <= |s| && p <= q <= e
    ensures s[..e][a..] == s[a..e] == s[a..e][0..] && s[..e][p..q] == s[p..q]
  {
  }

  /** A text that agrees with `s` from `a` to the end `q` of its lines shows at least these lines. */
  lemma WindowAgree(s: seq<byte>, a: nat, e: nat, y: seq<byte>, startsLine: bool, max: nat, p: nat, q: nat)
    requires a <= e <= |s| && Bounds(s[..e], a, startsLine, p, q)
    requires q - a <= |y| <= max && y[..q - a] == s[a..q]
    ensures s[p..q] <= Window(y, startsLine, max)
  {
    var p', q' := WindowBounds(y, startsLine, max);
    BoundsAgree(s, a, e, y, startsLine, p, q, p', q');
  }

  lemma BoundsAgree(s: seq<byte>, a: nat, e: nat, y: seq<byte>, starts: bool, p: nat, q: nat, p': nat, q': nat)
    requires a <= e <= |s| && Bounds(s[..e], a, starts, p, q) && Bounds(y, 0, starts, p', q')
    requires q - a <= |y| && y[..q - a] == s[a..q]
    ensures s[p..q] <= y[p'..q']
  {
    if p < q {
      forall k | 0 <= k < q - a ensures y[k] == s[a + k] {
        assert y[k] == y[..q - a][k] == s[a..q][k];
      }
      assert s[..e][q - 1] == s[q - 1] == y[q - 1 - a];
      SameStart(s[..e], a, y, starts, p, q, p', q');
      assert s[p..q] == y[p'..q - a];
    }
  }

  lemma SameStart(b: seq<byte>, a: nat, y: seq<byte>, starts: bool, p: nat, q: nat, p': nat, q': nat)
    requires Bounds(b, a, starts, p, q) && Bounds(y, 0, starts, p', q') && p < q && q - a <= |y|
    requires forall k :: 0 <= k < q - a ==> y[k] == b[a + k]
    ensures p' == p - a && q - a <= q'
  {
    assert b[q - 1] == y[q - 1 - a] == NL;
    if !starts {
      assert b[p - 1] == y[p - 1 - a] == NL;
    }
  }
}
