/**
 * Bind and Unbind as a whole (internal/subscriber/store.go): check, transact,
 * read back, with native writes possible between any two of these steps.
 */
module RegistryStore {
  import opened Common
  import opened Strings
  import opened Registry
  import opened RegistrySnapshot

  function Identity(imsi: string): string { "IMSI" + imsi }

  // ---- Reading one subscriber ------------------------------------------------------------

  function SipRows(sip: seq<SipRow>, imsi: string): seq<Row> {
    if sip == [] then []
    else (if sip[0].name == Identity(imsi) then [Sip(imsi, CallerText(sip[0]))] else [])
         + SipRows(sip[1..], imsi)
  }

  function DialRows(dial: seq<DialRow>, imsi: string): seq<Row> {
    if dial == [] then []
    else (if dial[0].dial == Identity(imsi) then [Dial(imsi, dial[0].exten)] else []) + DialRows(dial[1..], imsi)
  }

  /** The rows that Get selects. */
  function RowsOf(t: Tables, imsi: string): seq<Row> { SipRows(t.sip, imsi) + DialRows(t.dial, imsi) }

  /** COALESCE(callerid, ''). */
  function CallerText(row: SipRow): string { if row.callerid.Some? then row.callerid.value else "" }

  /** Every row of the identity is selected, and no other. */
  lemma RowsMean(t: Tables, imsi: string, row: Row)
    ensures row in RowsOf(t, imsi) <==>
              || (exists i :: 0 <= i < |t.sip| && t.sip[i].name == "IMSI" + imsi && row == ["S", imsi, CallerText(t.sip[i])])
              || (exists i :: 0 <= i < |t.dial| && t.dial[i].dial == "IMSI" + imsi && row == ["D", imsi, t.dial[i].exten])
  {
    SipRowsMean(t.sip, imsi, row);
    DialRowsMean(t.dial, imsi, row);
  }

  lemma {:induction false} SipRowsMean(sip: seq<SipRow>, imsi: string, row: Row)
    ensures row in SipRows(sip, imsi) <==>
              exists i :: 0 <= i < |sip| && sip[i].name == "IMSI" + imsi && row == ["S", imsi, CallerText(sip[i])]
  {
    if sip != [] {
      var rest := sip[1..];
      SipRowsMean(rest, imsi, row);
      assert forall i :: 1 <= i < |sip| ==> sip[i] == rest[i - 1];
      assert forall i :: 0 <= i < |rest| ==> rest[i] == sip[i + 1];
    }
  }

  lemma {:induction false} DialRowsMean(dial: seq<DialRow>, imsi: string, row: Row)
    ensures row in DialRows(dial, imsi) <==>
              exists i :: 0 <= i < |dial| && dial[i].dial == "IMSI" + imsi && row == ["D", imsi, dial[i].exten]
  {
    if dial != [] {
      var rest := dial[1..];
      DialRowsMean(rest, imsi, row);
      assert forall i :: 1 <= i < |dial| ==> dial[i] == rest[i - 1];
      assert forall i :: 0 <= i < |rest| ==> rest[i] == dial[i + 1];
    }
  }

  datatype Error = NotFound | InUse | Broken | Failed

  datatype Lookup = Found(subscriber: Subscriber) | Missing(error: Error)

  function LookupOf(r: Listing): Lookup {
    if r.Inconsistent? then Missing(Broken)
    else if r.items == [] then Missing(NotFound)
    else if |r.items| != 1 then Missing(Broken)
    else Found(r.items[0])
  }

  /** What the rows of an identity read as. */
  ghost predicate ReadsAs(t: Tables, imsi: string, r: Lookup) {
    exists l :: IsSnapshot(multiset(RowsOf(t, imsi)), l) && r == LookupOf(l)
  }

  lemma ReadsUnique(t: Tables, imsi: string, r: Lookup, s: Lookup)
    requires ReadsAs(t, imsi, r) && ReadsAs(t, imsi, s)
    ensures r == s
  {
    var l :| IsSnapshot(multiset(RowsOf(t, imsi)), l) && r == LookupOf(l);
    var m :| IsSnapshot(multiset(RowsOf(t, imsi)), m) && s == LookupOf(m);
    SnapshotUnique(multiset(RowsOf(t, imsi)), l, m);
  }

  /** Get, on the tables as they are. */
  method Get(t: Tables, imsi: string) returns (r: Lookup)
    ensures ReadsAs(t, imsi, r)
    ensures r.Found? ==> r.subscriber.imsi == imsi
  {
    var l := SubscribersFromSnapshot(RowsOf(t, imsi));
    OnlyRequested(t, imsi, l);
    r := LookupOf(l);
  }

  lemma {:induction false} SipRowsNamed(sip: seq<SipRow>, imsi: string)
    ensures |SipRows(sip, imsi)| == CountSip(sip, Identity(imsi))
    ensures forall r :: r in SipRows(sip, imsi) ==> |r| == 3 && r[0] == "S" && r[1] == imsi
  {
    if sip != [] { SipRowsNamed(sip[1..], imsi); }
  }

  lemma {:induction false} DialRowsNamed(dial: seq<DialRow>, imsi: string)
    ensures |DialRows(dial, imsi)| == CountDial(dial, Identity(imsi))
    ensures forall r :: r in DialRows(dial, imsi) ==> |r| == 3 && r[0] == "D" && r[1] == imsi
  {
    if dial != [] { DialRowsNamed(dial[1..], imsi); }
  }

  /** Whatever is listed from the rows of one identity is that identity. */
  lemma OnlyRequested(t: Tables, imsi: string, l: Listing)
    requires IsSnapshot(multiset(RowsOf(t, imsi)), l)
    ensures l.Listed? ==> forall i :: 0 <= i < |l.items| ==> l.items[i].imsi == imsi
  {
    var rows := RowsOf(t, imsi);
    SipRowsNamed(t.sip, imsi);
    DialRowsNamed(t.dial, imsi);
    if l.Listed? {
      forall i | 0 <= i < |l.items| ensures l.items[i].imsi == imsi {
        assert ItemOf(multiset(rows), l.items[i]);
        var c :| Sip(l.items[i].imsi, c) in multiset(rows);
        assert Sip(l.items[i].imsi, c)[1] == imsi;
      }
    }
  }

  /** Two rows of one identity in one table make the snapshot inadmissible. */
  lemma TwoRows(rows: seq<Row>, i: nat, j: nat)
    requires i < j < |rows| && |rows[i]| == |rows[j]| == 3 && rows[i][..2] == rows[j][..2]
    ensures !Admissible(multiset(rows))
  {
    var bag := multiset(rows);
    assert rows == rows[..j] + [rows[j]] + rows[j + 1..];
    assert rows[i] in rows[..j] && rows[i] in bag && rows[j] in bag;
    if rows[i] == rows[j] { assert bag[rows[i]] >= 2; }
  }

  /** Without a single SIP row, or with two dial rows, there is nobody to read. */
  lemma UnguardedIsMissing(t: Tables, imsi: string, l: Listing)
    requires !UnbindGuards(t, Identity(imsi)) && IsSnapshot(multiset(RowsOf(t, imsi)), l)
    ensures LookupOf(l) == Missing(if RowsOf(t, imsi) == [] then NotFound else Broken)
  {
    var sips, dials, rows := SipRows(t.sip, imsi), DialRows(t.dial, imsi), RowsOf(t, imsi);
    SipRowsNamed(t.sip, imsi);
    DialRowsNamed(t.dial, imsi);
    if rows == [] {
      assert multiset(rows) == multiset{};
      NobodyListed(l);
    } else if |sips| >= 2 {
      assert rows[0] == sips[0] && rows[1] == sips[1];
      SameHead(rows, 0, "S", imsi);
    } else if |sips| == 1 {
      assert rows[1] == dials[0] && rows[2] == dials[1];
      SameHead(rows, 1, "D", imsi);
    } else {
      OrphanRow(rows, imsi);
    }
  }

  lemma SameHead(rows: seq<Row>, i: nat, table: string, imsi: string)
    requires i + 1 < |rows| && |rows[i]| == |rows[i + 1]| == 3
    requires rows[i][0] == rows[i + 1][0] == table && rows[i][1] == rows[i + 1][1] == imsi
    ensures !Admissible(multiset(rows))
  {
    assert rows[i][..2] == [table, imsi] == rows[i + 1][..2];
    TwoRows(rows, i, i + 1);
  }

  lemma OrphanRow(rows: seq<Row>, imsi: string)
    requires rows != [] && forall r :: r in rows ==> |r| == 3 && r[0] == "D" && r[1] == imsi
    ensures !Admissible(multiset(rows))
  {
    assert rows[0] in multiset(rows);
    forall c ensures Sip(imsi, c) !in multiset(rows) {
      assert Sip(imsi, c)[0] == "S";
    }
  }

  /** An identity can be read exactly if it has one SIP row and at most one dial row. */
  lemma ReadableExactly(t: Tables, imsi: string, l: Listing)
    requires imsi != "" && IsSnapshot(multiset(RowsOf(t, imsi)), l)
    ensures LookupOf(l).Found? <==> UnbindGuards(t, Identity(imsi))
    ensures !UnbindGuards(t, Identity(imsi)) ==> LookupOf(l) == Missing(if RowsOf(t, imsi) == [] then NotFound else Broken)
  {
    if UnbindGuards(t, Identity(imsi)) { GuardedIsFound(t, imsi, l); } else { UnguardedIsMissing(t, imsi, l); }
  }

  lemma FoundItem(t: Tables, imsi: string, s: Subscriber)
    requires ReadsAs(t, imsi, Found(s))
    ensures var bag := multiset(RowsOf(t, imsi)); s.imsi == imsi && Admissible(bag) && ItemOf(bag, s)
  {
    var l :| IsSnapshot(multiset(RowsOf(t, imsi)), l) && Found(s) == LookupOf(l);
    OnlyRequested(t, imsi, l);
    assert ItemOf(multiset(RowsOf(t, imsi)), l.items[0]);
  }

  /**
   * What a subscriber that was found says about the tables: its number is the
   * stripped extension of its dial row, with which its caller ID has to agree.
   */
  lemma FoundMeans(t: Tables, imsi: string, s: Subscriber, i: nat, j: nat, number: string)
    requires ReadsAs(t, imsi, Found(s)) && i < |t.sip| && t.sip[i].name == "IMSI" + imsi
    requires j < |t.dial| && t.dial[j].dial == "IMSI" + imsi && Stripped(t.dial[j].exten, number)
    ensures s.imsi == imsi && s.number == (if number == "" then None else Some(number))
    ensures s.consistent <==> Stripped(CallerText(t.sip[i]), number)
  {
    SipInRows(t, imsi, i);
    DialInRows(t, imsi, j);
    FoundItem(t, imsi, s);
    ItemMeans(multiset(RowsOf(t, imsi)), s, CallerText(t.sip[i]), t.dial[j].exten, number);
  }

  /** Without a dial row there is no number, and the caller ID has to be blank. */
  lemma FoundWithoutDial(t: Tables, imsi: string, s: Subscriber, i: nat)
    requires ReadsAs(t, imsi, Found(s)) && i < |t.sip| && t.sip[i].name == "IMSI" + imsi
    requires forall j :: 0 <= j < |t.dial| ==> t.dial[j].dial != "IMSI" + imsi
    ensures s.imsi == imsi && s.number == None && (s.consistent <==> AllSpace(CallerText(t.sip[i])))
  {
    SipInRows(t, imsi, i);
    NoDialInRows(t, imsi);
    FoundItem(t, imsi, s);
    ItemWithoutDial(multiset(RowsOf(t, imsi)), s, CallerText(t.sip[i]));
  }

  lemma SipInRows(t: Tables, imsi: string, i: nat)
    requires i < |t.sip| && t.sip[i].name == "IMSI" + imsi
    ensures Sip(imsi, CallerText(t.sip[i])) in multiset(RowsOf(t, imsi))
  {
    RowsMean(t, imsi, Sip(imsi, CallerText(t.sip[i])));
  }

  lemma DialInRows(t: Tables, imsi: string, j: nat)
    requires j < |t.dial| && t.dial[j].dial == "IMSI" + imsi
    ensures Dial(imsi, t.dial[j].exten) in multiset(RowsOf(t, imsi))
  {
    RowsMean(t, imsi, Dial(imsi, t.dial[j].exten));
  }

  lemma NoDialInRows(t: Tables, imsi: string)
    ensures (forall j :: 0 <= j < |t.dial| ==> t.dial[j].dial != "IMSI" + imsi) ==> !HasDial(multiset(RowsOf(t, imsi)), imsi)
  {
    if c :| Dial(imsi, c) in multiset(RowsOf(t, imsi)) {
      RowsMean(t, imsi, Dial(imsi, c));
      assert Dial(imsi, c)[0] == "D" && Dial(imsi, c)[0] != "S";
    }
  }

  lemma NobodyListed(l: Listing)
    requires IsSnapshot(multiset{}, l)
    ensures LookupOf(l) == Missing(NotFound)
  {
    var none: multiset<Row> := multiset{};
    assert Admissible(none) && IsListing(none, []);
    SnapshotUnique(none, l, Listed([]));
  }

  lemma {:induction false} NoSipRows(sip: seq<SipRow>, imsi: string)
    requires CountSip(sip, Identity(imsi)) == 0
    ensures SipRows(sip, imsi) == []
  {
    if sip != [] { NoSipRows(sip[1..], imsi); }
  }

  lemma {:induction false} NoDialRows(dial: seq<DialRow>, imsi: string)
    requires CountDial(dial, Identity(imsi)) == 0
    ensures DialRows(dial, imsi) == []
  {
    if dial != [] { NoDialRows(dial[1..], imsi); }
  }

  lemma {:induction false} SetCallerRows(sip: seq<SipRow>, imsi: string, v: string)
    requires CountSip(sip, Identity(imsi)) <= 1
    ensures CountSip(SetCaller(sip, Identity(imsi), v), Identity(imsi)) == CountSip(sip, Identity(imsi))
    ensures SipRows(SetCaller(sip, Identity(imsi), v), imsi) == if CountSip(sip, Identity(imsi)) == 1 then [Sip(imsi, v)] else []
  {
    if sip != [] {
      assert SetCaller(sip, Identity(imsi), v)[1..] == SetCaller(sip[1..], Identity(imsi), v);
      SetCallerRows(sip[1..], imsi, v);
    }
  }

  lemma {:induction false} SetExtenRows(dial: seq<DialRow>, imsi: string, v: string)
    requires CountDial(dial, Identity(imsi)) <= 1
    ensures DialRows(SetExten(dial, Identity(imsi), v), imsi) == if CountDial(dial, Identity(imsi)) == 1 then [Dial(imsi, v)] else []
  {
    if dial != [] {
      assert SetExten(dial, Identity(imsi), v)[1..] == SetExten(dial[1..], Identity(imsi), v);
      SetExtenRows(dial[1..], imsi, v);
    }
  }

  /** The rows of one subscriber. */
  function Pair(imsi: string, caller: string, exten: string, hasDial: bool): seq<Row> {
    [Sip(imsi, caller)] + (if hasDial then [Dial(imsi, exten)] else [])
  }

  /** A SIP row and perhaps a dial row read as one subscriber. */
  lemma OneSubscriber(imsi: string, caller: string, exten: string, hasDial: bool, l: Listing)
    requires imsi != "" && (!hasDial ==> exten == "")
    requires IsSnapshot(multiset(Pair(imsi, caller, exten, hasDial)), l)
    ensures l == Listed([FromParts(imsi, caller, exten, hasDial)])
  {
    var bag := multiset(Pair(imsi, caller, exten, hasDial));
    var item := FromParts(imsi, caller, exten, hasDial);
    PairBag(imsi, caller, exten, hasDial);
    assert Imsis([item]) == [imsi];
    assert forall x :: x in Elements([imsi]) <==> x == imsi;
    assert IsListing(bag, [item]);
    SnapshotUnique(bag, l, Listed([item]));
  }

  lemma PairBag(imsi: string, caller: string, exten: string, hasDial: bool)
    requires imsi != "" && (!hasDial ==> exten == "")
    ensures
      var bag := multiset(Pair(imsi, caller, exten, hasDial));
      && Admissible(bag)
      && (forall x :: HasSip(bag, x) <==> x == imsi)
      && ItemOf(bag, FromParts(imsi, caller, exten, hasDial))
  {
    var s, d := Sip(imsi, caller), Dial(imsi, exten);
    var bag := multiset(Pair(imsi, caller, exten, hasDial));
    assert s[0] == "S" && d[0] == "D" && s[1] == imsi && d[1] == imsi && s != d;
    assert bag == if hasDial then multiset{s, d} else multiset{s};
    assert forall r :: r in bag <==> r == s || (hasDial && r == d);
    assert s[..2] == ["S", imsi] && d[..2] == ["D", imsi] && s[..2][0] != d[..2][0];
    forall x ensures HasSip(bag, x) <==> x == imsi {
      if HasSip(bag, x) {
        var c :| Sip(x, c) in bag;
        assert Sip(x, c)[0] == "S" && Sip(x, c)[1] == x;
      }
    }
    assert HasDial(bag, imsi) <==> hasDial by {
      if HasDial(bag, imsi) {
        var c :| Dial(imsi, c) in bag;
        assert Dial(imsi, c)[0] == "D";
      }
    }
    assert s in bag && (hasDial ==> d in bag);
  }

  lemma {:induction false} SingleSipRow(sip: seq<SipRow>, imsi: string) returns (caller: string)
    requires CountSip(sip, Identity(imsi)) == 1
    ensures SipRows(sip, imsi) == [Sip(imsi, caller)]
  {
    if sip[0].name == Identity(imsi) {
      NoSipRows(sip[1..], imsi);
      caller := if sip[0].callerid.Some? then sip[0].callerid.value else "";
    } else {
      caller := SingleSipRow(sip[1..], imsi);
    }
  }

  lemma {:induction false} SingleDialRow(dial: seq<DialRow>, imsi: string) returns (exten: string)
    requires CountDial(dial, Identity(imsi)) == 1
    ensures DialRows(dial, imsi) == [Dial(imsi, exten)]
  {
    if dial[0].dial == Identity(imsi) {
      NoDialRows(dial[1..], imsi);
      exten := dial[0].exten;
    } else {
      exten := SingleDialRow(dial[1..], imsi);
    }
  }

  /** A subscriber that passes the leading guards of Unbind can be read. */
  lemma GuardedIsFound(t: Tables, imsi: string, l: Listing)
    requires UnbindGuards(t, Identity(imsi)) && imsi != "" && IsSnapshot(multiset(RowsOf(t, imsi)), l)
    ensures LookupOf(l).Found?
  {
    var hasDial := CountDial(t.dial, Identity(imsi)) == 1;
    var caller := SingleSipRow(t.sip, imsi);
    var exten := "";
    if hasDial {
      exten := SingleDialRow(t.dial, imsi);
    } else {
      NoDialRows(t.dial, imsi);
    }
    assert RowsOf(t, imsi) == Pair(imsi, caller, exten, hasDial);
    OneSubscriber(imsi, caller, exten, hasDial, l);
  }

  /** Binding a number and reading the subscriber back gives that number, consistently. */
  lemma BindThenGet(t: Tables, imsi: string, number: string, l: Listing)
    requires BindGuards(t, Identity(imsi), number) && imsi != "" && number != "" && TrimSpace(number) == number
    requires IsSnapshot(multiset(RowsOf(Bound(t, Identity(imsi), number), imsi)), l)
    ensures LookupOf(l) == Found(Subscriber(imsi, Some(number), true))
  {
    SetCallerRows(t.sip, imsi, number);
    EnsureDialCount(t.dial, Identity(imsi), number);
    SetExtenRows(EnsureDial(t.dial, Identity(imsi), number), imsi, number);
    assert RowsOf(Bound(t, Identity(imsi), number), imsi) == Pair(imsi, number, number, true);
    OneSubscriber(imsi, number, number, true, l);
  }

  /** Unbinding leaves a consistent subscriber without a number. */
  lemma UnbindThenGet(t: Tables, imsi: string, l: Listing)
    requires UnbindGuards(t, Identity(imsi)) && imsi != ""
    requires IsSnapshot(multiset(RowsOf(Unbound(t, Identity(imsi)), imsi)), l)
    ensures LookupOf(l) == Found(Subscriber(imsi, None, true))
  {
    UnboundRows(t, imsi);
    OneSubscriber(imsi, "", "", CountDial(t.dial, Identity(imsi)) == 1, l);
    assert TrimSpace("") == "";
  }

  lemma UnboundRows(t: Tables, imsi: string)
    requires UnbindGuards(t, Identity(imsi))
    ensures RowsOf(Unbound(t, Identity(imsi)), imsi)
            == Pair(imsi, "", "", CountDial(t.dial, Identity(imsi)) == 1)
  {
    SetCallerRows(t.sip, imsi, "");
    SetExtenRows(t.dial, imsi, "");
  }

  // ---- Bind and Unbind with native writes in between ----------------------------------------

  datatype Point = State | Exec | Restate | Read

  /** What the native process does to the tables before each of our queries. */
  type Native = (Point, Tables) -> Tables

  ghost predicate Preserving(native: Native) {
    forall p, t :: Owned(t) ==> Owned(native(p, t))
  }

  /** The tables after native writes only. */
  ghost function Written(native: Native, t: Tables, points: seq<Point>): Tables {
    if points == [] then t else native(points[|points| - 1], Written(native, t, points[..|points| - 1]))
  }

  datatype Result = Ok(subscriber: Subscriber) | Err(error: Error)

  /** The verdict of bindingState, if it is one. */
  function StateError(t: Tables, id: string, number: string): Option<Error> {
    if CountSip(t.sip, id) == 0 then Some(NotFound)
    else if CountSip(t.sip, id) != 1 || CountDial(t.dial, id) > 1 then Some(Broken)
    else if Conflict(t, id, number) then Some(InUse)
    else None
  }

  /** Nobody else writes, and nothing fails. */
  ghost predicate Alone(native: Native, fails: Point -> bool, statementFails: nat -> bool) {
    (forall p, t :: native(p, t) == t) && (forall p :: !fails(p)) && (forall k :: !statementFails(k))
  }

  /** What Bind answers when it is alone: the first applicable error, or the new binding. */
  function BindVerdict(t: Tables, imsi: string, number: string): Result {
    match StateError(t, Identity(imsi), number)
    case Some(error) => Err(error)
    case None => Ok(Subscriber(imsi, Some(number), true))
  }

  /** What Unbind answers when it is alone: nobody, an inconsistent registry, or the released subscriber. */
  function UnbindVerdict(t: Tables, imsi: string): Result {
    var sips, dials := CountSip(t.sip, Identity(imsi)), CountDial(t.dial, Identity(imsi));
    if sips == 0 && dials == 0 then Err(NotFound)
    else if sips != 1 || dials > 1 then Err(Broken)
    else Ok(Subscriber(imsi, None, true))
  }

  ghost predicate Foreign(t: Tables, id: string, number: string) {
    || (exists i :: 0 <= i < |t.sip| && t.sip[i].callerid == Some(number) && t.sip[i].name != id)
    || (exists i :: 0 <= i < |t.dial| && t.dial[i].exten == number && t.dial[i].dial != id)
  }

  ghost predicate Repeated(t: Tables, id: string) {
    || (exists i, j :: 0 <= i < j < |t.sip| && t.sip[i].name == t.sip[j].name == id)
    || (exists i, j :: 0 <= i < j < |t.dial| && t.dial[i].dial == t.dial[j].dial == id)
  }

  ghost predicate HasSipRow(t: Tables, id: string) { exists i :: 0 <= i < |t.sip| && t.sip[i].name == id }

  /** The refusals: an identity without a SIP row, a repeated row, a number that somebody else has. */
  lemma StateErrorMeans(t: Tables, id: string, number: string)
    ensures StateError(t, id, number) == if !HasSipRow(t, id) then Some(NotFound)
                                         else if Repeated(t, id) then Some(Broken)
                                         else if Foreign(t, id, number) then Some(InUse)
                                         else None
  {
    CountSipMeans(t.sip, id);
    CountDialMeans(t.dial, id);
  }

  lemma WrittenMore(native: Native, t: Tables, points: seq<Point>, p: Point)
    ensures Written(native, t, points + [p]) == native(p, Written(native, t, points))
  {
    assert (points + [p])[..|points|] == points;
  }

  /** How the tables may have changed: by native writes, and around one transaction if it committed. */
  ghost predicate Changed(native: Native, t: Tables, id: string, number: string, committed: bool, u: Tables) {
    if committed then
      exists before, after :: && BindGuards(Written(native, t, before), id, number)
                              && u == Written(native, Bound(Written(native, t, before), id, number), after)
    else exists points :: u == Written(native, t, points)
  }

  lemma ChangedBy(native: Native, t: Tables, id: string, number: string, before: seq<Point>, p: Point, u: Tables)
    requires BindGuards(Written(native, t, before), id, number)
    requires u == Bound(Written(native, t, before), id, number)
    ensures Changed(native, t, id, number, true, u) && Changed(native, t, id, number, true, native(p, u))
  {
    WrittenMore(native, u, [], p);
    assert u == Written(native, u, []);
    assert native(p, u) == Written(native, u, [] + [p]);
  }

  /** The error of a read-back: nobody, an inconsistent registry, or not what was written. */
  ghost predicate ReadError(t: Tables, imsi: string, e: Error) {
    ReadsAs(t, imsi, Missing(e)) || (e == Broken && exists s :: ReadsAs(t, imsi, Found(s)))
  }

  lemma ReadBack(t: Tables, imsi: string, r: Lookup, number: Option<string>)
    requires ReadsAs(t, imsi, r)
    ensures r.Found? ==> r.subscriber.imsi == imsi
    ensures ReadsAs(t, imsi, Found(Subscriber(imsi, number, true))) <==>
              r.Found? && r.subscriber.number == number && r.subscriber.consistent
    ensures r.Missing? ==> ReadError(t, imsi, r.error)
    ensures r.Found? ==> ReadError(t, imsi, Broken)
  {
    var l :| IsSnapshot(multiset(RowsOf(t, imsi)), l) && r == LookupOf(l);
    OnlyRequested(t, imsi, l);
    var wanted := Found(Subscriber(imsi, number, true));
    if ReadsAs(t, imsi, wanted) { ReadsUnique(t, imsi, r, wanted); }
    if r.Found? { assert ReadsAs(t, imsi, Found(r.subscriber)); }
  }

  /** The verdict on a read-back. */
  method Confirm(t: Tables, imsi: string, number: Option<string>) returns (r: Result)
    ensures r.Ok? <==> ReadsAs(t, imsi, Found(Subscriber(imsi, number, true)))
    ensures r.Ok? ==> r.subscriber == Subscriber(imsi, number, true)
    ensures r.Err? ==> ReadError(t, imsi, r.error)
    ensures exists current :: ReadsAs(t, imsi, current)
  {
    var current := Get(t, imsi);
    ReadBack(t, imsi, current, number);
    if current.Missing? { return Err(current.error); }
    if current.subscriber.number != number || !current.subscriber.consistent { return Err(Broken); }
    r := Ok(current.subscriber);
  }

  /** The read-back of Bind: on the tables that the transaction left, it finds the binding. */
  lemma BoundReads(t: Tables, imsi: string, number: string, r: Lookup)
    requires BindGuards(t, Identity(imsi), number) && imsi != "" && number != "" && TrimSpace(number) == number
    requires ReadsAs(Bound(t, Identity(imsi), number), imsi, r)
    ensures r == Found(Subscriber(imsi, Some(number), true))
  {
    var u := Bound(t, Identity(imsi), number);
    var l :| IsSnapshot(multiset(RowsOf(u, imsi)), l) && r == LookupOf(l);
    BindThenGet(t, imsi, number, l);
  }

  /** The read-back of Unbind. */
  lemma UnboundReads(t: Tables, imsi: string, r: Lookup)
    requires UnbindGuards(t, Identity(imsi)) && imsi != "" && ReadsAs(Unbound(t, Identity(imsi)), imsi, r)
    ensures r == Found(Subscriber(imsi, None, true))
  {
    var u := Unbound(t, Identity(imsi));
    var l :| IsSnapshot(multiset(RowsOf(u, imsi)), l) && r == LookupOf(l);
    UnbindThenGet(t, imsi, l);
  }

  method ConfirmBound(t: Tables, imsi: string, number: string, ghost before: Tables) returns (r: Result)
    requires BindGuards(before, Identity(imsi), number)
    ensures r.Ok? <==> ReadsAs(t, imsi, Found(Subscriber(imsi, Some(number), true)))
    ensures r.Ok? ==> r.subscriber == Subscriber(imsi, Some(number), true)
    ensures r.Err? ==> ReadError(t, imsi, r.error)
    ensures t == Bound(before, Identity(imsi), number) && imsi != "" && number != "" && TrimSpace(number) == number ==> r.Ok?
  {
    r := Confirm(t, imsi, Some(number));
    ghost var current :| ReadsAs(t, imsi, current);
    if t == Bound(before, Identity(imsi), number) && imsi != "" && number != "" && TrimSpace(number) == number {
      BoundReads(before, imsi, number, current);
    }
  }

  method ConfirmUnbound(t: Tables, imsi: string, ghost before: Tables) returns (r: Result)
    requires UnbindGuards(before, Identity(imsi))
    ensures r.Ok? <==> ReadsAs(t, imsi, Found(Subscriber(imsi, None, true)))
    ensures r.Ok? ==> r.subscriber == Subscriber(imsi, None, true)
    ensures r.Err? ==> ReadError(t, imsi, r.error)
    ensures t == Unbound(before, Identity(imsi)) && imsi != "" ==> r.Ok?
  {
    r := Confirm(t, imsi, None);
    ghost var current :| ReadsAs(t, imsi, current);
    if t == Unbound(before, Identity(imsi)) && imsi != "" { UnboundReads(before, imsi, current); }
  }

  /** The first read of Unbind. */
  method GetAny(t: Tables, imsi: string) returns (r: Lookup)
    ensures ReadsAs(t, imsi, r)
    ensures UnbindGuards(t, Identity(imsi)) && imsi != "" ==> r.Found?
    ensures !UnbindGuards(t, Identity(imsi)) ==>
              r == Missing(if CountSip(t.sip, Identity(imsi)) == 0 && CountDial(t.dial, Identity(imsi)) == 0 then NotFound else Broken)
  {
    r := Get(t, imsi);
    ghost var l :| IsSnapshot(multiset(RowsOf(t, imsi)), l) && r == LookupOf(l);
    if UnbindGuards(t, Identity(imsi)) {
      if imsi != "" { GuardedIsFound(t, imsi, l); }
    } else {
      UnguardedIsMissing(t, imsi, l);
      SipRowsNamed(t.sip, imsi);
      DialRowsNamed(t.dial, imsi);
    }
  }

  /**
   * Store.Bind. Ownership is kept; without a commit nothing but native writes
   * has happened; success means that the number was read back consistently.
   */
  method Bind(db: Database, imsi: string, number: string, native: Native, fails: Point -> bool, statementFails: nat -> bool)
    returns (r: Result, ghost committed: bool)
    modifies db
    ensures Preserving(native) && Owned(old(db.Now())) ==> Owned(db.Now())
    ensures Changed(native, old(db.Now()), Identity(imsi), number, committed, db.Now())
    ensures r.Ok? ==> r.subscriber == Subscriber(imsi, Some(number), true)
    ensures r.Ok? <==> committed && !fails(Read) && ReadsAs(db.Now(), imsi, Found(Subscriber(imsi, Some(number), true)))
    ensures !committed && r.error != Failed ==> StateError(db.Now(), Identity(imsi), number) == Some(r.error)
    ensures !committed && r.error == Failed && !fails(State) && !fails(Restate) ==> StateError(db.Now(), Identity(imsi), number).None?
    ensures committed && r.Err? && !fails(Read) ==> ReadError(db.Now(), imsi, r.error)
    ensures Alone(native, fails, statementFails) && imsi != "" && number != "" && TrimSpace(number) == number ==>
              r == BindVerdict(old(db.Now()), imsi, number)
  {
    ghost var t0 := db.Now();
    ghost var points: seq<Point> := [];
    var id := Identity(imsi);
    committed := false;
    db.Become(native(State, Tables(db.sip, db.dial)));
    WrittenMore(native, t0, points, State);
    points := points + [State];
    if fails(State) { return Err(Failed), committed; }
    var state := StateError(Tables(db.sip, db.dial), id, number);
    if state.Some? { return Err(state.value), committed; }
    db.Become(native(Exec, Tables(db.sip, db.dial)));
    WrittenMore(native, t0, points, Exec);
    points := points + [Exec];
    ghost var t2 := db.Now();
    var ok := db.BindTransaction(id, number, statementFails);
    if !ok {
      db.Become(native(Restate, Tables(db.sip, db.dial)));
      WrittenMore(native, t0, points, Restate);
      points := points + [Restate];
      if !fails(Restate) {
        state := StateError(Tables(db.sip, db.dial), id, number);
        if state.Some? { return Err(state.value), committed; }
      }
      return Err(Failed), committed;
    }
    committed := true;
    if Owned(t2) { BindKeepsOwnership(t2, id, number); }
    ChangedBy(native, t0, id, number, points, Read, db.Now());
    db.Become(native(Read, Tables(db.sip, db.dial)));
    if fails(Read) { return Err(Failed), committed; }
    r := ConfirmBound(Tables(db.sip, db.dial), imsi, number, t2);
  }

  ghost predicate Released(native: Native, t: Tables, id: string, committed: bool, u: Tables) {
    if committed then
      exists before, after :: && UnbindGuards(Written(native, t, before), id)
                              && u == Written(native, Unbound(Written(native, t, before), id), after)
    else exists points :: u == Written(native, t, points)
  }

  lemma ReleasedBy(native: Native, t: Tables, id: string, before: seq<Point>, p: Point, u: Tables)
    requires UnbindGuards(Written(native, t, before), id)
    requires u == Unbound(Written(native, t, before), id)
    ensures Released(native, t, id, true, u) && Released(native, t, id, true, native(p, u))
  {
    WrittenMore(native, u, [], p);
    assert u == Written(native, u, []);
    assert native(p, u) == Written(native, u, [] + [p]);
  }

  /** Unbind up to its transaction: who it is about is read first. */
  method Release(db: Database, imsi: string, native: Native, fails: Point -> bool, statementFails: nat -> bool)
    returns (refused: Option<Error>, ghost points: seq<Point>, ghost before: Tables)
    modifies db
    ensures Preserving(native) && Owned(old(db.Now())) ==> Owned(db.Now())
    ensures before == Written(native, old(db.Now()), points)
    ensures refused.None? ==> UnbindGuards(before, Identity(imsi)) && db.Now() == Unbound(before, Identity(imsi))
    ensures refused.Some? ==> db.Now() == before && (refused.value != Failed ==> ReadsAs(db.Now(), imsi, Missing(refused.value)))
    ensures Alone(native, fails, statementFails) && imsi != "" ==>
              before == old(db.Now()) && refused == match UnbindVerdict(before, imsi) case Ok(_) => None case Err(e) => Some(e)
  {
    ghost var t0 := db.Now();
    var id := Identity(imsi);
    db.Become(native(State, Tables(db.sip, db.dial)));
    WrittenMore(native, t0, [], State);
    points, before := [] + [State], db.Now();
    if fails(State) { return Some(Failed), points, before; }
    var current := GetAny(Tables(db.sip, db.dial), imsi);
    if current.Missing? { return Some(current.error), points, before; }
    db.Become(native(Exec, Tables(db.sip, db.dial)));
    WrittenMore(native, t0, points, Exec);
    points, before := points + [Exec], db.Now();
    var ok := db.UnbindTransaction(id, statementFails);
    if Owned(before) { UnbindKeepsOwnership(before, id); }
    refused := if ok then None else Some(Failed);
  }

  /** Store.Unbind. */
  method Unbind(db: Database, imsi: string, native: Native, fails: Point -> bool, statementFails: nat -> bool)
    returns (r: Result, ghost committed: bool)
    modifies db
    ensures Preserving(native) && Owned(old(db.Now())) ==> Owned(db.Now())
    ensures Released(native, old(db.Now()), Identity(imsi), committed, db.Now())
    ensures r.Ok? ==> r.subscriber == Subscriber(imsi, None, true)
    ensures r.Ok? <==> committed && !fails(Read) && ReadsAs(db.Now(), imsi, Found(Subscriber(imsi, None, true)))
    ensures !committed && r.error != Failed ==> ReadsAs(db.Now(), imsi, Missing(r.error))
    ensures committed && r.Err? && !fails(Read) ==> ReadError(db.Now(), imsi, r.error)
    ensures Alone(native, fails, statementFails) && imsi != "" ==> r == UnbindVerdict(old(db.Now()), imsi)
  {
    ghost var t0 := db.Now();
    ghost var points, before;
    var refused;
    refused, points, before := Release(db, imsi, native, fails, statementFails);
    committed := refused.None?;
    if refused.Some? { return Err(refused.value), committed; }
    ReleasedBy(native, t0, Identity(imsi), points, Read, db.Now());
    db.Become(native(Read, Tables(db.sip, db.dial)));
    if fails(Read) { return Err(Failed), committed; }
    r := ConfirmUnbound(Tables(db.sip, db.dial), imsi, before);
  }
}
