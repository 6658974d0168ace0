/**
 * The bounded tail of a call-record file (internal/telephony/telephony.go): a
 * scan from the end of the file finds where the first whole CSV record begins,
 * although newlines may occur inside quoted fields (section 2 of RFC 4180).
 */
module CdrTail {
  import opened Common

  const QUOTE := '"'

  // ---- The scan ------------------------------------------------------------------

  /** The number of quotes is odd. */
  predicate OddQuotes(s: string) {
    if s == [] then false else (s[0] == QUOTE) != OddQuotes(s[1..])
  }

  /** A newline ends in front of `p`, and quoting is balanced from `p` to the end. */
  predicate Boundary(data: string, p: int) {
    0 < p < |data| && data[p - 1] == '\n' && !OddQuotes(data[p..])
  }

  /** The outcome of a completed scan. */
  ghost predicate Earliest(data: string, boundary: int, found: bool) {
    && (found ==> Boundary(data, boundary) && forall p :: 0 < p < boundary ==> !Boundary(data, p))
    && (!found ==> forall p :: 0 < p < |data| ==> !Boundary(data, p))
  }

  /** firstSafeCSVBoundary; `cancelled(i)` says whether the context has ended at index `i`. */
  method FirstSafeCsvBoundary(data: string, cancelled: int -> bool) returns (boundary: int, found: bool, ok: bool)
    ensures ok ==> Earliest(data, boundary, found)
    ensures (forall i :: !cancelled(i)) ==> ok
  {
    var inQuotes := false;
    var earliest := -1;
    var index := |data| - 1;
    while index >= 0
      invariant -1 <= index < |data|
      invariant inQuotes == OddQuotes(data[index + 1..])
      invariant earliest >= 0 ==> Boundary(data, earliest) && index + 1 < earliest
      invariant forall p :: index + 1 < p < (if earliest >= 0 then earliest else |data|) ==> !Boundary(data, p)
    {
      if index % 65536 == 0 && cancelled(index) { return 0, false, false; }
      assert data[index..][1..] == data[index + 1..];
      if data[index] == QUOTE {
        inQuotes := !inQuotes;
      } else if data[index] == '\n' {
        if !inQuotes && index + 1 < |data| {
          earliest := index + 1;
        }
      }
      index := index - 1;
    }
    return earliest, earliest >= 0, true;
  }

  // ---- The tail window ----------------------------------------------------------------

  const MAX_WINDOW: int := 64 * 1024 * 1024

  datatype Tail = Kept(data: string, truncated: bool) | BadWindow | Cancelled | IncompleteRecord

  /** The part of HistoryInLocation in front of the CSV reader. */
  method HistoryTail(file: string, maxBytes: int, readCancelled: bool, cancelled: int -> bool) returns (r: Tail)
    ensures r == BadWindow <==> maxBytes <= 0 || maxBytes > MAX_WINDOW
    ensures r == Cancelled ==> readCancelled || exists i :: cancelled(i)
    ensures r == IncompleteRecord ==> |file| > maxBytes > 0 && file[|file| - 1] != '\n'
    ensures r.Kept? ==> r.truncated == (|file| > maxBytes)
    ensures r.Kept? && !r.truncated ==> r.data == file
    ensures r.Kept? && r.truncated ==>
              && file[|file| - 1] == '\n'
              && var window := file[|file| - maxBytes..];
                 exists p, found :: Earliest(window, p, found) && r.data == (if found then window[p..] else [])
  {
    if maxBytes <= 0 || maxBytes > MAX_WINDOW { return BadWindow; }
    var truncated := |file| > maxBytes;
    var start := if truncated then |file| - maxBytes else 0;
    if readCancelled { return Cancelled; }
    var data := file[start..];
    if truncated {
      if |data| != 0 && data[|data| - 1] != '\n' { return IncompleteRecord; }
      var boundary, found, ok := FirstSafeCsvBoundary(data, cancelled);
      if !ok { return Cancelled; }
      data := if found then data[boundary..] else [];
    }
    r := Kept(data, truncated);
  }

  // ---- Files of records, written as RFC 4180 says ----------------------------------------

  datatype Field = Plain(text: string) | Quoted(text: string)

  /** A field without quotes holds no quote, comma or newline; a quoted one may hold anything. */
  predicate WellFormed(f: Field) {
    f.Plain? ==> QUOTE !in f.text && ',' !in f.text && '\n' !in f.text
  }

  type Record = r: seq<Field> | |r| > 0 && forall i :: 0 <= i < |r| ==> WellFormed(r[i]) witness [Plain("")]

  function Doubled(s: string): string {
    if s == [] then [] else (if s[0] == QUOTE then [QUOTE, QUOTE] else [s[0]]) + Doubled(s[1..])
  }

  function EncodeField(f: Field): string {
    match f
    case Plain(text) => text
    case Quoted(text) => [QUOTE] + Doubled(text) + [QUOTE]
  }

  function EncodeFields(r: seq<Field>): string {
    if r == [] then []
    else if |r| == 1 then EncodeField(r[0])
    else EncodeField(r[0]) + "," + EncodeFields(r[1..])
  }

  function EncodeRecord(r: Record): string { EncodeFields(r) + "\n" }

  function EncodeFile(records: seq<Record>): string {
    if records == [] then [] else EncodeFile(records[..|records| - 1]) + EncodeRecord(records[|records| - 1])
  }

  lemma {:induction false} OddQuotesConcat(a: string, b: string)
    ensures OddQuotes(a + b) == (OddQuotes(a) != OddQuotes(b))
  {
    if a == [] {
      assert a + b == b;
    } else {
      assert (a + b)[1..] == a[1..] + b;
      OddQuotesConcat(a[1..], b);
    }
  }

  /** Quotes are paired, and every newline lies inside a pair. */
  ghost predicate Balanced(s: string) {
    !OddQuotes(s) && forall q :: 0 <= q < |s| && s[q] == '\n' ==> OddQuotes(s[q + 1..])
  }

  lemma BalancedConcat(a: string, b: string)
    requires Balanced(a) && Balanced(b)
    ensures Balanced(a + b)
  {
    OddQuotesConcat(a, b);
    forall q | 0 <= q < |a + b| && (a + b)[q] == '\n' ensures OddQuotes((a + b)[q + 1..]) {
      if q < |a| {
        assert (a + b)[q + 1..] == a[q + 1..] + b;
        OddQuotesConcat(a[q + 1..], b);
      } else {
        assert (a + b)[q + 1..] == b[q - |a| + 1..];
      }
    }
  }

  lemma {:induction false} NoQuotes(s: string)
    requires QUOTE !in s
    ensures !OddQuotes(s)
  {
    if s != [] { NoQuotes(s[1..]); }
  }

  /** After any newline of a doubled text the quotes are still paired. */
  lemma {:induction false} DoubledPairs(s: string)
    ensures !OddQuotes(Doubled(s))
    ensures forall q :: 0 <= q < |Doubled(s)| && Doubled(s)[q] == '\n' ==> !OddQuotes(Doubled(s)[q + 1..])
  {
    if s != [] {
      var head, tail := if s[0] == QUOTE then [QUOTE, QUOTE] else [s[0]], Doubled(s[1..]);
      DoubledPairs(s[1..]);
      OddQuotesConcat(head, tail);
      assert head[1..] == (if s[0] == QUOTE then [QUOTE] else []);
      forall q | 0 <= q < |Doubled(s)| && Doubled(s)[q] == '\n' ensures !OddQuotes(Doubled(s)[q + 1..]) {
        if q >= |head| {
          assert Doubled(s)[q + 1..] == tail[q - |head| + 1..];
        } else {
          assert Doubled(s)[q + 1..] == tail;
        }
      }
    }
  }

  lemma FieldBalanced(f: Field)
    requires WellFormed(f)
    ensures Balanced(EncodeField(f))
  {
    match f
    case Plain(text) => NoQuotes(text);
    case Quoted(text) =>
      var d := Doubled(text);
      var open, close := [QUOTE], [QUOTE];
      DoubledPairs(text);
      OddQuotesConcat(open, d);
      OddQuotesConcat(open + d, close);
      assert !OddQuotes(open[1..]) && !OddQuotes(close[1..]);
      forall q | 0 <= q < |EncodeField(f)| && EncodeField(f)[q] == '\n' ensures OddQuotes(EncodeField(f)[q + 1..]) {
        assert EncodeField(f)[q + 1..] == d[q..] + close;
        assert d[q - 1] == '\n' && d[q..] == d[q - 1 + 1..];
        OddQuotesConcat(d[q..], close);
      }
  }

  lemma {:induction false} FieldsBalanced(r: seq<Field>)
    requires forall i :: 0 <= i < |r| ==> WellFormed(r[i])
    ensures Balanced(EncodeFields(r))
  {
    if |r| == 1 {
      FieldBalanced(r[0]);
    } else if |r| > 1 {
      FieldBalanced(r[0]);
      FieldsBalanced(r[1..]);
      NoQuotes(",");
      assert Balanced(",");
      BalancedConcat(EncodeField(r[0]), ",");
      BalancedConcat(EncodeField(r[0]) + ",", EncodeFields(r[1..]));
    }
  }

  /** Inside a record no newline looks like a boundary. */
  lemma RecordInner(r: Record, p: int)
    ensures !OddQuotes(EncodeRecord(r))
    ensures 0 < p < |EncodeRecord(r)| && EncodeRecord(r)[p - 1] == '\n' ==> OddQuotes(EncodeRecord(r)[p..])
  {
    var body := EncodeFields(r);
    FieldsBalanced(r);
    NoQuotes("\n");
    OddQuotesConcat(body, "\n");
    if 0 < p < |EncodeRecord(r)| && EncodeRecord(r)[p - 1] == '\n' {
      assert body[p - 1] == '\n';
      assert EncodeRecord(r)[p..] == body[p - 1 + 1..] + "\n";
      OddQuotesConcat(body[p..], "\n");
    }
  }

  /** Where record `k` begins. */
  function RecordStart(records: seq<Record>, k: nat): nat
    requires k <= |records|
  {
    |EncodeFile(records[..k])|
  }

  lemma {:induction false} StartsAscend(records: seq<Record>, i: nat, j: nat)
    requires i < j <= |records|
    ensures RecordStart(records, i) < RecordStart(records, j)
    decreases j
  {
    assert records[..j][..j - 1] == records[..j - 1];
    if i < j - 1 { StartsAscend(records, i, j - 1); }
  }

  lemma {:induction false} FileBalanced(records: seq<Record>)
    ensures !OddQuotes(EncodeFile(records))
    ensures records != [] ==> EncodeFile(records) != [] && EncodeFile(records)[|EncodeFile(records)| - 1] == '\n'
    decreases |records|
  {
    if records != [] {
      var init, last := records[..|records| - 1], records[|records| - 1];
      FileBalanced(init);
      RecordInner(last, 0);
      OddQuotesConcat(EncodeFile(init), EncodeRecord(last));
    }
  }

  /** A record other than the first begins at `p`. */
  ghost predicate IsStart(records: seq<Record>, p: nat) {
    exists k: nat :: 0 < k < |records| && RecordStart(records, k) == p
  }

  /** Appending a record adds just one boundary: the place where it is appended. */
  lemma BoundaryInConcat(head: string, tail: string, p: nat)
    requires !OddQuotes(head) && (head != [] ==> head[|head| - 1] == '\n')
    requires tail != [] && !OddQuotes(tail)
    requires |head| < p < |head| + |tail| && tail[p - |head| - 1] == '\n' ==> OddQuotes(tail[p - |head|..])
    ensures Boundary(head + tail, p) <==> Boundary(head, p) || (p == |head| && head != [])
  {
    if 0 < p < |head| {
      assert (head + tail)[p..] == head[p..] + tail;
      OddQuotesConcat(head[p..], tail);
    } else if p == |head| {
      assert (head + tail)[p..] == tail;
    } else if |head| < p < |head + tail| {
      assert (head + tail)[p..] == tail[p - |head|..];
    }
  }

  lemma SameStart(records: seq<Record>, n: nat, k: nat)
    requires k <= n <= |records|
    ensures RecordStart(records[..n], k) == RecordStart(records, k)
  {
    SliceOfSlice(records, 0, n, 0, k);
    assert records[0..n] == records[..n] && records[..n][0..k] == records[..n][..k] && records[0..k] == records[..k];
  }

  lemma StartsAt(records: seq<Record>, k: nat, p: nat)
    requires 0 < k < |records| && RecordStart(records, k) == p
    ensures IsStart(records, p)
  {
  }

  lemma StartKept(records: seq<Record>, n: nat, p: nat)
    requires n <= |records| && IsStart(records[..n], p)
    ensures IsStart(records, p)
  {
    var k: nat :| 0 < k < n && RecordStart(records[..n], k) == p;
    SameStart(records, n, k);
    StartsAt(records, k, p);
  }

  lemma StartOfLast(records: seq<Record>, p: nat)
    requires records != []
    ensures IsStart(records, p) <==>
              IsStart(records[..|records| - 1], p) || (|records| > 1 && p == |EncodeFile(records[..|records| - 1])|)
  {
    var n := |records| - 1;
    if IsStart(records[..n], p) { StartKept(records, n, p); }
    if n > 0 && p == RecordStart(records, n) { StartsAt(records, n, p); }
    if IsStart(records, p) {
      var k: nat :| 0 < k < |records| && RecordStart(records, k) == p;
      if k < n {
        SameStart(records, n, k);
        StartsAt(records[..n], k, p);
      }
    }
  }

  /** The scan's boundaries are exactly the beginnings of the records after the first. */
  lemma {:induction false} BoundariesAreStarts(records: seq<Record>, p: nat)
    ensures Boundary(EncodeFile(records), p) <==> IsStart(records, p)
    decreases |records|
  {
    if records != [] {
      var init := records[..|records| - 1];
      BoundariesAreStarts(init, p);
      FileBalanced(init);
      var last := records[|records| - 1];
      RecordInner(last, p - |EncodeFile(init)|);
      BoundaryInConcat(EncodeFile(init), EncodeRecord(last), p);
      StartOfLast(records, p);
    }
  }

  /** The place lies behind a newline, and outside quotes as seen from the beginning of the file. */
  predicate ForwardStart(s: string, p: int) {
    0 < p < |s| && s[p - 1] == '\n' && !OddQuotes(s[..p])
  }

  /** In a text whose quotes are paired, counting quotes from the end and from the beginning agree. */
  lemma BackwardIsForward(s: string, p: int)
    requires !OddQuotes(s)
    ensures Boundary(s, p) <==> ForwardStart(s, p)
  {
    if 0 < p < |s| {
      assert s == s[..p] + s[p..];
      OddQuotesConcat(s[..p], s[p..]);
    }
  }

  /** A forward quote-state parse of the whole file finds the same record beginnings. */
  lemma ForwardFindsStarts(records: seq<Record>, p: nat)
    ensures ForwardStart(EncodeFile(records), p) <==> IsStart(records, p)
  {
    FileBalanced(records);
    BackwardIsForward(EncodeFile(records), p);
    BoundariesAreStarts(records, p);
  }

  lemma Splits<T>(s: seq<T>, n: nat, k: nat)
    requires k <= n == |s| - 1
    ensures s[..n][..k] == s[..k] && s[..n][k..] == s[k..][..n - k] && s[k..][n - k] == s[n]
  {
  }

  lemma {:induction false} FileSplit(records: seq<Record>, k: nat)
    requires k <= |records|
    ensures EncodeFile(records) == EncodeFile(records[..k]) + EncodeFile(records[k..])
    decreases |records|
  {
    if k < |records| {
      var n := |records| - 1;
      var init, head, tail := records[..n], records[..k], records[k..];
      FileSplit(init, k);
      Splits(records, n, k);
      Assoc(EncodeFile(head), EncodeFile(tail[..n - k]), EncodeRecord(records[n]));
    } else {
      assert records[..k] == records && records[k..] == [];
    }
  }

  /**
   * For every file of records and every window, the scan keeps exactly the
   * records that begin strictly after the cut.
   */
  lemma TailKeepsWholeRecords(records: seq<Record>, cut: nat, boundary: int, found: bool) returns (k: nat)
    requires cut <= |EncodeFile(records)| && Earliest(EncodeFile(records)[cut..], boundary, found)
    ensures k <= |records|
    ensures (if found then EncodeFile(records)[cut..][boundary..] else []) == EncodeFile(records[k..])
    ensures forall i: nat :: i < |records| ==> (RecordStart(records, i) > cut <==> i >= k)
  {
    var file := EncodeFile(records);
    var window := file[cut..];
    var p := if found then cut + boundary else |file|;
    forall q: nat | cut < q < p ensures !Boundary(file, q) {
      assert window[q - cut..] == file[q..];
      assert !Boundary(window, q - cut);
    }
    if found {
      assert window[boundary..] == file[p..];
      BoundariesAreStarts(records, p);
      k :| 0 < k < |records| && RecordStart(records, k) == p;
      FileSplit(records, k);
    } else {
      k := |records|;
      assert records[..k] == records;
    }
    forall i: nat | i < |records| ensures RecordStart(records, i) > cut <==> i >= k {
      BeginsAfter(records, cut, k, i);
    }
  }

  /** No record begins between the cut and record `k`, and later ones begin later. */
  lemma BeginsAfter(records: seq<Record>, cut: nat, k: nat, i: nat)
    requires i < |records| && k <= |records|
    requires k < |records| ==> cut < RecordStart(records, k)
    requires forall q: nat :: cut < q < RecordStart(records, k) ==> !Boundary(EncodeFile(records), q)
    ensures RecordStart(records, i) > cut <==> i >= k
  {
    assert records[..0] == [];
    if i > k {
      StartsAscend(records, k, i);
    } else if i < k {
      StartsAscend(records, i, k);
      if i > 0 {
        assert IsStart(records, RecordStart(records, i));
        BoundariesAreStarts(records, RecordStart(records, i));
      }
    }
  }
}
