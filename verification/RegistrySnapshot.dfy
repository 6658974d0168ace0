/**
 * Reading the registry (internal/subscriber/store.go): one snapshot of both
 * tables becomes a sorted list of subscribers, or nothing if it is inconsistent.
 */
module RegistrySnapshot {
  import opened Common
  import opened Strings

  type Row = seq<string>

  datatype Subscriber = Subscriber(imsi: string, number: Option<string>, consistent: bool)

  datatype Listing = Listed(items: seq<Subscriber>) | Inconsistent

  /** subscriberFromParts. */
  function FromParts(imsi: string, callerid: string, dial: string, hasDial: bool): Subscriber {
    var caller, number := TrimSpace(callerid), TrimSpace(dial);
    Subscriber(imsi, if hasDial && number != "" then Some(number) else None,
               if hasDial then caller == number else caller == "")
  }

  // ---- What a snapshot means, whatever the order of its rows -----------------------------

  function Sip(imsi: string, callerid: string): Row { ["S", imsi, callerid] }

  function Dial(imsi: string, exten: string): Row { ["D", imsi, exten] }

  predicate WellFormed(row: Row) {
    |row| == 3 && row[1] != "" && (row[0] == "S" || row[0] == "D")
  }

  ghost predicate HasSip(bag: multiset<Row>, imsi: string) { exists c :: Sip(imsi, c) in bag }

  ghost predicate HasDial(bag: multiset<Row>, imsi: string) { exists c :: Dial(imsi, c) in bag }

  /** Well-formed rows, no identity twice in a table, and no dial row without a SIP row. */
  ghost predicate Admissible(bag: multiset<Row>) {
    && (forall r :: r in bag ==> WellFormed(r) && bag[r] == 1)
    && (forall r, s :: r in bag && s in bag && r[..2] == s[..2] ==> r == s)
    && (forall r :: r in bag && r[0] == "D" ==> HasSip(bag, r[1]))
  }

  /** The subscriber follows from its one or two rows alone. */
  ghost predicate ItemOf(bag: multiset<Row>, item: Subscriber) {
    exists callerid, exten ::
      && Sip(item.imsi, callerid) in bag
      && (HasDial(bag, item.imsi) ==> Dial(item.imsi, exten) in bag)
      && (!HasDial(bag, item.imsi) ==> exten == "")
      && item == FromParts(item.imsi, callerid, exten, HasDial(bag, item.imsi))
  }

  function Imsis(items: seq<Subscriber>): (r: seq<string>)
    ensures |r| == |items| && forall i :: 0 <= i < |r| ==> r[i] == items[i].imsi
  {
    seq(|items|, i requires 0 <= i < |items| => items[i].imsi)
  }

  ghost predicate IsListing(bag: multiset<Row>, items: seq<Subscriber>) {
    && Sorted(Imsis(items))
    && (forall imsi :: imsi in Elements(Imsis(items)) <==> HasSip(bag, imsi))
    && (forall i :: 0 <= i < |items| ==> ItemOf(bag, items[i]))
  }

  ghost predicate IsSnapshot(bag: multiset<Row>, r: Listing) {
    if Admissible(bag) then r.Listed? && IsListing(bag, r.items) else r.Inconsistent?
  }

  lemma ItemUnique(bag: multiset<Row>, a: Subscriber, b: Subscriber)
    requires Admissible(bag) && ItemOf(bag, a) && ItemOf(bag, b) && a.imsi == b.imsi
    ensures a == b
  {
    var c, x :| Sip(a.imsi, c) in bag && (HasDial(bag, a.imsi) ==> Dial(a.imsi, x) in bag)
                && (!HasDial(bag, a.imsi) ==> x == "") && a == FromParts(a.imsi, c, x, HasDial(bag, a.imsi));
    var d, y :| Sip(b.imsi, d) in bag && (HasDial(bag, b.imsi) ==> Dial(b.imsi, y) in bag)
                && (!HasDial(bag, b.imsi) ==> y == "") && b == FromParts(b.imsi, d, y, HasDial(bag, b.imsi));
    SameRow(bag, Sip(a.imsi, c), Sip(a.imsi, d));
    assert c == Sip(a.imsi, c)[2] == Sip(a.imsi, d)[2] == d;
    if HasDial(bag, a.imsi) {
      SameRow(bag, Dial(a.imsi, x), Dial(a.imsi, y));
      assert x == Dial(a.imsi, x)[2] == Dial(a.imsi, y)[2] == y;
    }
  }

  /** The texts an item is made of. */
  lemma ItemRows(bag: multiset<Row>, item: Subscriber) returns (caller: string, exten: string)
    requires Admissible(bag) && ItemOf(bag, item)
    ensures Sip(item.imsi, caller) in bag && forall c :: Sip(item.imsi, c) in bag ==> c == caller
    ensures forall x :: Dial(item.imsi, x) in bag ==> x == exten
    ensures item == FromParts(item.imsi, caller, exten, HasDial(bag, item.imsi))
  {
    caller, exten :| Sip(item.imsi, caller) in bag && (HasDial(bag, item.imsi) ==> Dial(item.imsi, exten) in bag)
                     && (!HasDial(bag, item.imsi) ==> exten == "")
                     && item == FromParts(item.imsi, caller, exten, HasDial(bag, item.imsi));
    forall c | Sip(item.imsi, c) in bag ensures c == caller {
      SameRow(bag, Sip(item.imsi, caller), Sip(item.imsi, c));
      assert caller == Sip(item.imsi, caller)[2] == Sip(item.imsi, c)[2] == c;
    }
    forall x | Dial(item.imsi, x) in bag ensures x == exten {
      SameRow(bag, Dial(item.imsi, exten), Dial(item.imsi, x));
      assert exten == Dial(item.imsi, exten)[2] == Dial(item.imsi, x)[2] == x;
    }
  }

  /**
   * A subscriber's number is the stripped text of its dial row, and its caller
   * ID has to say the same.
   */
  lemma ItemMeans(bag: multiset<Row>, item: Subscriber, caller: string, exten: string, number: string)
    requires Admissible(bag) && ItemOf(bag, item)
    requires Sip(item.imsi, caller) in bag && Dial(item.imsi, exten) in bag && Stripped(exten, number)
    ensures item.number == if number == "" then None else Some(number)
    ensures item.consistent <==> Stripped(caller, number)
  {
    var c, x := ItemRows(bag, item);
    TrimMeans(exten, number);
    TrimMeans(caller, number);
  }

  /** Without a dial row there is no number, and the caller ID has to be blank. */
  lemma ItemWithoutDial(bag: multiset<Row>, item: Subscriber, caller: string)
    requires Admissible(bag) && ItemOf(bag, item)
    requires Sip(item.imsi, caller) in bag && forall x :: Dial(item.imsi, x) !in bag
    ensures item.number == None && (item.consistent <==> AllSpace(caller))
  {
    var c, x := ItemRows(bag, item);
    TrimMeans(caller, "");
    BlankIsStripped(caller);
  }

  lemma SameRow(bag: multiset<Row>, r: Row, s: Row)
    requires Admissible(bag) && r in bag && s in bag && r[0] == s[0] && r[1] == s[1]
    ensures r == s
  {
    assert r[..2] == [r[0], r[1]] && s[..2] == [s[0], s[1]];
  }

  lemma SnapshotUnique(bag: multiset<Row>, r: Listing, s: Listing)
    requires IsSnapshot(bag, r) && IsSnapshot(bag, s)
    ensures r == s
  {
    if Admissible(bag) {
      var a, b := Imsis(r.items), Imsis(s.items);
      assert Elements(a) == Elements(b);
      SortedUnique(a, b);
      forall i | 0 <= i < |r.items| ensures r.items[i] == s.items[i] {
        assert a[i] == b[i];
        ItemUnique(bag, r.items[i], s.items[i]);
      }
    }
  }

  /** Every order of the rows gives the same verdict and the same list. */
  lemma OrderIndependent(rows: seq<Row>, rows': seq<Row>, r: Listing, r': Listing)
    requires multiset(rows) == multiset(rows')
    requires IsSnapshot(multiset(rows), r) && IsSnapshot(multiset(rows'), r')
    ensures r == r'
  {
    SnapshotUnique(multiset(rows), r, r');
  }

  // ---- The two passes -------------------------------------------------------------------

  /** The maps hold exactly the rows seen so far. */
  ghost predicate Collected(bag: multiset<Row>, sips: map<string, string>, dials: map<string, string>) {
    && (forall r :: r in bag ==> WellFormed(r) && bag[r] == 1 && InMaps(r, sips, dials))
    && (forall k :: k in sips ==> Sip(k, sips[k]) in bag)
    && (forall k :: k in dials ==> Dial(k, dials[k]) in bag)
  }

  ghost predicate InMaps(r: Row, sips: map<string, string>, dials: map<string, string>)
    requires WellFormed(r)
  {
    if r[0] == "S" then r[1] in sips && sips[r[1]] == r[2] else r[1] in dials && dials[r[1]] == r[2]
  }

  lemma RowParts(r: Row)
    requires WellFormed(r)
    ensures r == if r[0] == "S" then Sip(r[1], r[2]) else Dial(r[1], r[2])
  {
  }

  lemma CollectSip(bag: multiset<Row>, sips: map<string, string>, dials: map<string, string>, k: string, v: string)
    requires Collected(bag, sips, dials) && k != "" && k !in sips
    ensures Collected(bag + multiset{Sip(k, v)}, sips[k := v], dials)
  {
    var row, next := Sip(k, v), bag + multiset{Sip(k, v)};
    assert row[0] == "S" && row[1] == k;
    assert !InMaps(row, sips, dials);
    forall r | r in next ensures WellFormed(r) && next[r] == 1 && InMaps(r, sips[k := v], dials) {
      if r != row { assert r in bag && InMaps(r, sips, dials); }
    }
  }

  lemma CollectDial(bag: multiset<Row>, sips: map<string, string>, dials: map<string, string>, k: string, v: string)
    requires Collected(bag, sips, dials) && k != "" && k !in dials
    ensures Collected(bag + multiset{Dial(k, v)}, sips, dials[k := v])
  {
    var row, next := Dial(k, v), bag + multiset{Dial(k, v)};
    assert row[0] == "D" && row[1] == k;
    assert !InMaps(row, sips, dials);
    forall r | r in next ensures WellFormed(r) && next[r] == 1 && InMaps(r, sips, dials[k := v]) {
      if r != row { assert r in bag && InMaps(r, sips, dials); }
    }
  }

  /** A second row for an identity makes the snapshot inadmissible, whatever follows. */
  lemma Duplicate(bag: multiset<Row>, sips: map<string, string>, dials: map<string, string>, row: Row, all: multiset<Row>)
    requires Collected(bag, sips, dials) && WellFormed(row) && bag + multiset{row} <= all
    requires row[1] in (if row[0] == "S" then sips else dials)
    ensures !Admissible(all)
  {
    RowParts(row);
    var other := if row[0] == "S" then Sip(row[1], sips[row[1]]) else Dial(row[1], dials[row[1]]);
    assert other in bag && other in all;
    assert row in bag + multiset{row} && row in all;
    assert other[..2] == row[..2];
    if other == row { assert all[row] >= (bag + multiset{row})[row] >= 2; }
  }

  lemma Malformed(row: Row, all: multiset<Row>)
    requires row in all && !WellFormed(row)
    ensures !Admissible(all)
  {
  }

  lemma PrefixBag(rows: seq<Row>, i: nat)
    requires i < |rows|
    ensures multiset(rows[..i]) + multiset{rows[i]} == multiset(rows[..i + 1]) <= multiset(rows)
    ensures rows[i] in multiset(rows)
  {
    assert rows[..i + 1] == rows[..i] + [rows[i]];
    assert rows == rows[..i + 1] + rows[i + 1..];
  }

  /** One row of the first pass. */
  method CollectRow(row: Row, sipsBefore: map<string, string>, dialsBefore: map<string, string>,
                    ghost bag: multiset<Row>, ghost all: multiset<Row>)
    returns (ok: bool, sips: map<string, string>, dials: map<string, string>)
    requires Collected(bag, sipsBefore, dialsBefore) && row in all && bag + multiset{row} <= all
    ensures ok ==> Collected(bag + multiset{row}, sips, dials)
    ensures !ok ==> !Admissible(all)
  {
    ok, sips, dials := false, sipsBefore, dialsBefore;
    if |row| != 3 || row[1] == "" || (row[0] != "S" && row[0] != "D") {
      Malformed(row, all);
      return;
    }
    var target := if row[0] == "D" then dials else sips;
    if row[1] in target {
      Duplicate(bag, sips, dials, row, all);
      return;
    }
    ok := true;
    RowParts(row);
    if row[0] == "D" {
      CollectDial(bag, sips, dials, row[1], row[2]);
      dials := dials[row[1] := row[2]];
    } else {
      CollectSip(bag, sips, dials, row[1], row[2]);
      sips := sips[row[1] := row[2]];
    }
  }

  /** The first pass: rows into two maps. */
  method CollectRows(rows: seq<Row>) returns (ok: bool, sips: map<string, string>, dials: map<string, string>)
    ensures ok ==> Collected(multiset(rows), sips, dials)
    ensures !ok ==> !Admissible(multiset(rows))
  {
    sips, dials := map[], map[];
    var i := 0;
    while i < |rows|
      invariant 0 <= i <= |rows| && Collected(multiset(rows[..i]), sips, dials)
    {
      PrefixBag(rows, i);
      ok, sips, dials := CollectRow(rows[i], sips, dials, multiset(rows[..i]), multiset(rows));
      if !ok { return; }
      i := i + 1;
    }
    assert rows[..i] == rows;
    ok := true;
  }

  function ItemFrom(sips: map<string, string>, dials: map<string, string>, imsi: string): Subscriber
    requires imsi in sips
  {
    FromParts(imsi, sips[imsi], if imsi in dials then dials[imsi] else "", imsi in dials)
  }

  lemma CollectedHas(bag: multiset<Row>, sips: map<string, string>, dials: map<string, string>, imsi: string)
    requires Collected(bag, sips, dials)
    ensures HasSip(bag, imsi) <==> imsi in sips
    ensures HasDial(bag, imsi) <==> imsi in dials
  {
    if HasSip(bag, imsi) {
      var c :| Sip(imsi, c) in bag;
      assert InMaps(Sip(imsi, c), sips, dials);
    }
    if HasDial(bag, imsi) {
      var c :| Dial(imsi, c) in bag;
      assert InMaps(Dial(imsi, c), sips, dials);
    }
  }

  lemma CollectedItem(bag: multiset<Row>, sips: map<string, string>, dials: map<string, string>, imsi: string)
    requires Collected(bag, sips, dials) && imsi in sips
    ensures ItemOf(bag, ItemFrom(sips, dials, imsi))
  {
    CollectedHas(bag, sips, dials, imsi);
    var exten := if imsi in dials then dials[imsi] else "";
    assert Sip(imsi, sips[imsi]) in bag && (imsi in dials ==> Dial(imsi, exten) in bag);
  }

  lemma OneRow(bag: multiset<Row>, sips: map<string, string>, dials: map<string, string>, r: Row, s: Row)
    requires Collected(bag, sips, dials) && r in bag && s in bag && r[..2] == s[..2]
    ensures r == s
  {
    assert r[0] == r[..2][0] && r[1] == r[..2][1] && s[0] == s[..2][0] && s[1] == s[..2][1];
    assert InMaps(r, sips, dials) && InMaps(s, sips, dials);
    RowParts(r);
    RowParts(s);
  }

  lemma DialHasSip(bag: multiset<Row>, sips: map<string, string>, dials: map<string, string>, r: Row)
    requires Collected(bag, sips, dials) && dials.Keys <= sips.Keys && r in bag && r[0] == "D"
    ensures HasSip(bag, r[1])
  {
    assert InMaps(r, sips, dials);
    CollectedHas(bag, sips, dials, r[1]);
  }

  lemma Orphan(bag: multiset<Row>, sips: map<string, string>, dials: map<string, string>, k: string)
    requires Collected(bag, sips, dials) && k in dials && k !in sips
    ensures !Admissible(bag)
  {
    var row := Dial(k, dials[k]);
    assert row in bag && row[0] == "D" && row[1] == k;
    CollectedHas(bag, sips, dials, k);
  }

  /** The collected rows are admissible exactly if there are no orphans. */
  lemma CollectedAdmissible(bag: multiset<Row>, sips: map<string, string>, dials: map<string, string>)
    requires Collected(bag, sips, dials)
    ensures Admissible(bag) <==> dials.Keys <= sips.Keys
  {
    if dials.Keys <= sips.Keys {
      forall r, s | r in bag && s in bag && r[..2] == s[..2] ensures r == s {
        OneRow(bag, sips, dials, r, s);
      }
      forall r | r in bag && r[0] == "D" ensures HasSip(bag, r[1]) {
        DialHasSip(bag, sips, dials, r);
      }
    } else {
      var k :| k in dials && k !in sips;
      Orphan(bag, sips, dials, k);
    }
  }

  /** The second pass: one subscriber per SIP identity, consuming the dial rows. */
  method BuildItems(identities: seq<string>, sips: map<string, string>, dials: map<string, string>)
    returns (out: seq<Subscriber>, rest: map<string, string>)
    requires Sorted(identities) && forall k :: 0 <= k < |identities| ==> identities[k] in sips
    ensures |out| == |identities|
    ensures forall k :: 0 <= k < |out| ==> out[k] == ItemFrom(sips, dials, identities[k])
    ensures rest.Keys == dials.Keys - Elements(identities)
  {
    out := [];
    rest := dials;
    var i := 0;
    while i < |identities|
      invariant 0 <= i <= |identities| && |out| == i
      invariant forall k :: 0 <= k < i ==> out[k] == ItemFrom(sips, dials, identities[k])
      invariant rest == dials - Elements(identities[..i])
    {
      var imsi := identities[i];
      Distinct(identities, i);
      var hasDial := imsi in rest;
      out := out + [FromParts(imsi, sips[imsi], if hasDial then rest[imsi] else "", hasDial)];
      rest := rest - {imsi};
      assert identities[..i + 1] == identities[..i] + [imsi];
      assert Elements(identities[..i + 1]) == Elements(identities[..i]) + {imsi};
      i := i + 1;
    }
    assert identities[..i] == identities;
  }

  method ListSubscribers(sips: map<string, string>, dials: map<string, string>)
    returns (out: seq<Subscriber>, orphans: bool)
    ensures Sorted(Imsis(out)) && Elements(Imsis(out)) == sips.Keys
    ensures forall k :: 0 <= k < |out| ==> out[k].imsi in sips && out[k] == ItemFrom(sips, dials, out[k].imsi)
    ensures !orphans <==> dials.Keys <= sips.Keys
  {
    var identities := SortKeys(sips.Keys);
    assert forall k :: 0 <= k < |identities| ==> identities[k] in Elements(identities);
    var rest;
    out, rest := BuildItems(identities, sips, dials);
    assert Imsis(out) == identities;
    assert rest.Keys == {} <==> |rest| == 0;
    orphans := |rest| != 0;
  }

  lemma ListingOf(bag: multiset<Row>, sips: map<string, string>, dials: map<string, string>, out: seq<Subscriber>)
    requires Collected(bag, sips, dials) && Sorted(Imsis(out)) && Elements(Imsis(out)) == sips.Keys
    requires forall k :: 0 <= k < |out| ==> out[k].imsi in sips && out[k] == ItemFrom(sips, dials, out[k].imsi)
    ensures IsListing(bag, out)
  {
    forall imsi ensures imsi in Elements(Imsis(out)) <==> HasSip(bag, imsi) {
      CollectedHas(bag, sips, dials, imsi);
    }
    forall k | 0 <= k < |out| ensures ItemOf(bag, out[k]) {
      CollectedItem(bag, sips, dials, out[k].imsi);
    }
  }

  /** subscribersFromSnapshot. */
  method SubscribersFromSnapshot(rows: seq<Row>) returns (r: Listing)
    ensures IsSnapshot(multiset(rows), r)
  {
    var ok, sips, dials := CollectRows(rows);
    if !ok { return Inconsistent; }
    var out, orphans := ListSubscribers(sips, dials);
    CollectedAdmissible(multiset(rows), sips, dials);
    if orphans { return Inconsistent; }
    ListingOf(multiset(rows), sips, dials, out);
    r := Listed(out);
  }

  lemma Distinct(s: seq<string>, i: nat)
    requires Sorted(s) && i < |s|
    ensures s[i] !in s[..i]
  {
    if s[i] in s[..i] {
      var k :| 0 <= k < i && s[..i][k] == s[i];
      assert Less(s[k], s[i]);
      LessTotal(s[k], s[i]);
    }
  }
}
