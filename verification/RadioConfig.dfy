/**
 * The radio configuration table (internal/gsm/db.go): a guarded batch of
 * updates, checked against the configuration it will produce.
 */
module RadioConfig {
  import opened Common
  import opened Strings
  import opened RadioParams

  datatype Row = Row(key: string, value: string)

  /** The eight radio settings kept in the table. */
  datatype Key = Arfcns | C0 | Band | Mcc | Mnc | Lac | Ci | ShortName

  function Name(k: Key): string {
    match k
    case Arfcns => "GSM.Radio.ARFCNs"
    case C0 => "GSM.Radio.C0"
    case Band => "GSM.Radio.Band"
    case Mcc => "GSM.Identity.MCC"
    case Mnc => "GSM.Identity.MNC"
    case Lac => "GSM.Identity.LAC"
    case Ci => "GSM.Identity.CI"
    case ShortName => "GSM.Identity.ShortName"
  }

  const RADIO_KEYS: seq<Key> := [Arfcns, C0, Band, Mcc, Mnc, Lac, Ci, ShortName]

  predicate IsRadioKey(key: string) { exists k: Key :: Name(k) == key }

  function Setting(p: Params, k: Key): string {
    match k
    case Arfcns => p.arfcns
    case C0 => p.c0
    case Band => p.band
    case Mcc => p.mcc
    case Mnc => p.mnc
    case Lac => p.lac
    case Ci => p.ci
    case ShortName => p.shortName
  }

  lemma NameInjective(a: Key, b: Key)
    requires Name(a) == Name(b)
    ensures a == b
  {
    assert |Name(Arfcns)| == |Name(Mcc)| == |Name(Mnc)| == |Name(Lac)| == 16;
    assert |Name(a)| == |Name(b)|;
    if |Name(a)| == 16 {
      assert Name(a)[4] == Name(b)[4] && Name(a)[13] == Name(b)[13] && Name(a)[14] == Name(b)[14];
    }
  }

  // ---- Reading the configuration ---------------------------------------------------------

  /** A later row overrides an earlier one. */
  function RowMap(rows: seq<Row>): map<string, string> {
    if rows == [] then map[] else RowMap(rows[..|rows| - 1])[rows[|rows| - 1].key := rows[|rows| - 1].value]
  }

  ghost predicate LastAt(rows: seq<Row>, key: string, i: int) {
    0 <= i < |rows| && rows[i].key == key && forall j :: i < j < |rows| ==> rows[j].key != key
  }

  /** The map holds the value of each key's last row, and no other key. */
  lemma {:induction false} RowMapMeans(rows: seq<Row>, key: string)
    ensures key in RowMap(rows) <==> exists i :: LastAt(rows, key, i)
    ensures forall i :: LastAt(rows, key, i) ==> RowMap(rows)[key] == rows[i].value
  {
    if rows != [] {
      var n := |rows| - 1;
      var init := rows[..n];
      RowMapMeans(init, key);
      if rows[n].key == key {
        assert LastAt(rows, key, n);
      } else {
        assert forall i :: LastAt(init, key, i) <==> LastAt(rows, key, i);
      }
    }
  }

  function Lookup(m: map<string, string>, k: Key): string { if Name(k) in m then m[Name(k)] else "" }

  function FromMap(m: map<string, string>): Params {
    Params(Lookup(m, Arfcns), Lookup(m, C0), Lookup(m, Band), Lookup(m, Mcc), Lookup(m, Mnc),
           Lookup(m, Lac), Lookup(m, Ci), Lookup(m, ShortName), "lo")
  }

  /** The configuration a reader of the table sees. */
  function Rebuilt(rows: seq<Row>): Params { FromMap(RowMap(rows)) }

  function ValueOf(rows: seq<Row>, key: string): string {
    if key in RowMap(rows) then RowMap(rows)[key] else ""
  }

  /** The rows of each parameter; a missing one reads as empty, and the network is not in the table. */
  lemma RebuiltMeans(rows: seq<Row>)
    ensures Rebuilt(rows) == Params(
              ValueOf(rows, "GSM.Radio.ARFCNs"), ValueOf(rows, "GSM.Radio.C0"), ValueOf(rows, "GSM.Radio.Band"),
              ValueOf(rows, "GSM.Identity.MCC"), ValueOf(rows, "GSM.Identity.MNC"), ValueOf(rows, "GSM.Identity.LAC"),
              ValueOf(rows, "GSM.Identity.CI"), ValueOf(rows, "GSM.Identity.ShortName"), "lo")
  {
  }

  lemma RadioKeyMeans(key: string)
    ensures IsRadioKey(key) <==>
              || key == "GSM.Radio.ARFCNs" || key == "GSM.Radio.C0" || key == "GSM.Radio.Band"
              || key == "GSM.Identity.MCC" || key == "GSM.Identity.MNC" || key == "GSM.Identity.LAC"
              || key == "GSM.Identity.CI" || key == "GSM.Identity.ShortName"
  {
    assert forall k: Key :: Name(k) == key ==>
             k == Arfcns || k == C0 || k == Band || k == Mcc || k == Mnc || k == Lac || k == Ci || k == ShortName;
    assert Name(Arfcns) == "GSM.Radio.ARFCNs" && Name(C0) == "GSM.Radio.C0" && Name(Band) == "GSM.Radio.Band";
    assert Name(Mcc) == "GSM.Identity.MCC" && Name(Mnc) == "GSM.Identity.MNC" && Name(Lac) == "GSM.Identity.LAC";
    assert Name(Ci) == "GSM.Identity.CI" && Name(ShortName) == "GSM.Identity.ShortName";
  }

  lemma {:induction false} RowMapHas(rows: seq<Row>, i: nat)
    requires i < |rows|
    ensures rows[i].key in RowMap(rows)
  {
    if i < |rows| - 1 { RowMapHas(rows[..|rows| - 1], i); }
  }

  // ---- Updating --------------------------------------------------------------------------

  function CountKey(rows: seq<Row>, key: string): nat {
    if rows == [] then 0 else CountKey(rows[..|rows| - 1], key) + (if rows[|rows| - 1].key == key then 1 else 0)
  }

  /** A key has exactly one row if its only row is at one place. */
  lemma {:induction false} CountKeyMeans(rows: seq<Row>, key: string)
    ensures CountKey(rows, key) == 0 <==> forall i :: 0 <= i < |rows| ==> rows[i].key != key
    ensures CountKey(rows, key) <= 1 <==> forall i, j :: 0 <= i < j < |rows| ==> rows[i].key != key || rows[j].key != key
  {
    if rows != [] {
      var init := rows[..|rows| - 1];
      CountKeyMeans(init, key);
      assert forall i :: 0 <= i < |init| ==> init[i] == rows[i];
    }
  }

  /** The table with new values for some keys: no row added, removed or moved. */
  function Replaced(rows: seq<Row>, values: map<string, string>): (r: seq<Row>)
    ensures |r| == |rows|
    ensures forall i :: 0 <= i < |r| ==> r[i] == ReplacedRow(rows[i], values)
  {
    seq(|rows|, i requires 0 <= i < |rows| => ReplacedRow(rows[i], values))
  }

  function ReplacedRow(row: Row, values: map<string, string>): Row {
    if row.key in values then Row(row.key, values[row.key]) else row
  }

  /** One UPDATE statement. */
  function SetValue(rows: seq<Row>, key: string, value: string): (r: seq<Row>)
    ensures r == Replaced(rows, map[key := value])
  {
    if rows == [] then []
    else
      assert rows[..|rows| - 1] + [rows[|rows| - 1]] == rows;
      SetValue(rows[..|rows| - 1], key, value)
      + [if rows[|rows| - 1].key == key then Row(key, value) else rows[|rows| - 1]]
  }

  /** The batch as a map; a later update of a key overrides an earlier one. */
  function AsMap(updates: seq<Row>): map<string, string> { RowMap(updates) }

  lemma ReplaceTwice(rows: seq<Row>, values: map<string, string>, key: string, value: string)
    ensures SetValue(Replaced(rows, values), key, value) == Replaced(rows, values[key := value])
  {
  }

  lemma {:induction false} CountReplaced(rows: seq<Row>, values: map<string, string>, key: string)
    ensures CountKey(Replaced(rows, values), key) == CountKey(rows, key)
  {
    if rows != [] {
      CountReplaced(rows[..|rows| - 1], values, key);
      assert Replaced(rows, values)[..|rows| - 1] == Replaced(rows[..|rows| - 1], values);
    }
  }

  ghost predicate AllOnce(rows: seq<Row>, updates: seq<Row>) {
    forall i :: 0 <= i < |updates| ==> CountKey(rows, updates[i].key) == 1
  }

  ghost predicate KeysOnce(rows: seq<Row>, values: map<string, string>) {
    forall k :: k in values ==> CountKey(rows, k) == 1
  }

  lemma {:induction false} CountedRow(rows: seq<Row>, key: string)
    requires CountKey(rows, key) > 0
    ensures key in RowMap(rows)
  {
    if rows[|rows| - 1].key != key { CountedRow(rows[..|rows| - 1], key); }
  }

  /** Updating the rows and overriding the map of the rows are the same thing. */
  lemma {:induction false} UpdateIsOverride(rows: seq<Row>, values: map<string, string>)
    ensures forall k :: k in RowMap(Replaced(rows, values)) <==> k in RowMap(rows)
    ensures forall k :: k in RowMap(rows) ==>
              RowMap(Replaced(rows, values))[k] == if k in values then values[k] else RowMap(rows)[k]
  {
    if rows != [] {
      UpdateIsOverride(rows[..|rows| - 1], values);
      assert Replaced(rows, values)[..|rows| - 1] == Replaced(rows[..|rows| - 1], values);
    }
  }

  /** What a reader sees after the batch is what was validated before it. */
  lemma RebuiltAfter(rows: seq<Row>, values: map<string, string>)
    requires KeysOnce(rows, values)
    ensures Rebuilt(Replaced(rows, values)) == FromMap(RowMap(rows) + values)
  {
    UpdateIsOverride(rows, values);
    forall k: Key ensures Lookup(RowMap(Replaced(rows, values)), k) == Lookup(RowMap(rows) + values, k) {
      if Name(k) in values { CountedRow(rows, Name(k)); }
    }
  }

  /** The row carries the last of its updates, or is as it was if there is none. */
  ghost predicate IsUpdated(before: Row, updates: seq<Row>, after: Row) {
    && after.key == before.key
    && (forall i :: LastAt(updates, before.key, i) ==> after.value == updates[i].value)
    && ((forall i :: 0 <= i < |updates| ==> updates[i].key != before.key) ==> after == before)
  }

  /** What a batch does to the rows: none is added, removed or moved. */
  lemma UpdatedRows(rows: seq<Row>, updates: seq<Row>)
    ensures |Replaced(rows, AsMap(updates))| == |rows|
    ensures forall i :: 0 <= i < |rows| ==> IsUpdated(rows[i], updates, Replaced(rows, AsMap(updates))[i])
  {
    forall i | 0 <= i < |rows| ensures IsUpdated(rows[i], updates, Replaced(rows, AsMap(updates))[i]) {
      RowMapMeans(updates, rows[i].key);
    }
  }

  /** A row of one of the eight settings carries its parameter. */
  ghost predicate Carries(row: Row, p: Params) {
    && (row.key == "GSM.Radio.ARFCNs" ==> row.value == p.arfcns)
    && (row.key == "GSM.Radio.C0" ==> row.value == p.c0)
    && (row.key == "GSM.Radio.Band" ==> row.value == p.band)
    && (row.key == "GSM.Identity.MCC" ==> row.value == p.mcc)
    && (row.key == "GSM.Identity.MNC" ==> row.value == p.mnc)
    && (row.key == "GSM.Identity.LAC" ==> row.value == p.lac)
    && (row.key == "GSM.Identity.CI" ==> row.value == p.ci)
    && (row.key == "GSM.Identity.ShortName" ==> row.value == p.shortName)
  }

  lemma SettingsShow(p: Params, row: Row)
    ensures Carries(ReplacedRow(row, AsMap(Settings(p, |RADIO_KEYS|))), p)
  {
    var m := AsMap(Settings(p, |RADIO_KEYS|));
    forall k: Key ensures Name(k) in m && m[Name(k)] == Setting(p, k) { SettingsMap(p, k); }
    EachSetting(m, p);
  }

  lemma EachSetting(m: map<string, string>, p: Params)
    requires forall k: Key :: Name(k) in m && m[Name(k)] == Setting(p, k)
    ensures forall row: Row :: Carries(ReplacedRow(row, m), p)
  {
    assert Name(Arfcns) in m && Name(C0) in m && Name(Band) in m && Name(Mcc) in m;
    assert Name(Mnc) in m && Name(Lac) in m && Name(Ci) in m && Name(ShortName) in m;
  }

  class ConfigTable {
    var rows: seq<Row>

    constructor (rows: seq<Row>)
      ensures this.rows == rows
    {
      this.rows := rows;
    }

    /**
     * updateConfigTransaction: each UPDATE must change exactly one row.
     * `fails(k)` lets statement `k` fail for a reason of its own.
     */
    method UpdateTransaction(updates: seq<Row>, fails: nat -> bool) returns (ok: bool)
      modifies this
      ensures ok <==> AllOnce(old(rows), updates) && forall k :: 0 <= k <= |updates| + 1 ==> !fails(k)
      ensures rows == if ok then Replaced(old(rows), AsMap(updates)) else old(rows)
    {
      ghost var before := rows;
      assert Replaced(before, map[]) == before;
      if fails(0) { return false; }
      var saved := rows;
      var i := 0;
      while i < |updates|
        invariant 0 <= i <= |updates| && AllOnce(before, updates[..i])
        invariant forall k :: 0 <= k <= i ==> !fails(k)
        invariant rows == Replaced(before, AsMap(updates[..i]))
      {
        ok := UpdateOne(updates, i, fails(i + 1), before);
        if !ok {
          rows := saved;
          return false;
        }
        assert updates[..i + 1][..i] == updates[..i];
        i := i + 1;
      }
      assert updates[..i] == updates;
      if fails(i + 1) {
        rows := saved;
        return false;
      }
      ok := true;
    }

    /** One UPDATE of the batch, and the check that it has changed one row. */
    method UpdateOne(updates: seq<Row>, i: nat, fails: bool, ghost before: seq<Row>) returns (ok: bool)
      requires i < |updates| && rows == Replaced(before, AsMap(updates[..i]))
      modifies this
      ensures rows == Replaced(before, AsMap(updates[..i + 1]))
      ensures ok <==> !fails && CountKey(before, updates[i].key) == 1
    {
      var u := updates[i];
      CountReplaced(before, AsMap(updates[..i]), u.key);
      ReplaceTwice(before, AsMap(updates[..i]), u.key, u.value);
      assert updates[..i + 1][..i] == updates[..i];
      var changes := CountKey(rows, u.key);
      rows := SetValue(rows, u.key, u.value);
      ok := !fails && changes == 1;
    }

    /** applyConfigLocked: on success a reader of the table sees exactly the given parameters. */
    method ApplyConfig(p: Params, fails: nat -> bool) returns (ok: bool)
      modifies this
      ensures ok <==> AllKeysOnce(old(rows)) && forall k :: 0 <= k <= 9 ==> !fails(k)
      ensures ok ==> Rebuilt(rows).(network := p.network) == p
      ensures ok ==> forall i :: 0 <= i < |rows| ==> Carries(rows[i], p)
      ensures ok ==> |rows| == |old(rows)| && forall i :: 0 <= i < |rows| ==>
                       rows[i].key == old(rows)[i].key && (!IsRadioKey(rows[i].key) ==> rows[i] == old(rows)[i])
      ensures !ok ==> rows == old(rows)
    {
      var updates: seq<Row> := [];
      var i := 0;
      while i < |RADIO_KEYS|
        modifies {}
        invariant 0 <= i <= |RADIO_KEYS| && updates == Settings(p, i)
      {
        updates := updates + [Row(Name(RADIO_KEYS[i]), Setting(p, RADIO_KEYS[i]))];
        i := i + 1;
      }
      BatchOnce(p, rows);
      SettingsMap(p, Arfcns);
      ok := UpdateTransaction(updates, fails);
      if ok {
        Applied(p, old(rows));
        forall i | 0 <= i < |rows| ensures Carries(rows[i], p) { SettingsShow(p, old(rows)[i]); }
      }
    }

    /** The writing half of UpdateConfig: one update for each value. */
    method StoreValues(keys: seq<string>, values: map<string, string>, fails: nat -> bool) returns (ok: bool)
      requires Sorted(keys) && Elements(keys) == values.Keys
      modifies this
      ensures ok <==> KeysOnce(old(rows), values) && forall k :: 0 <= k <= |values| + 1 ==> !fails(k)
      ensures rows == if ok then Replaced(old(rows), values) else old(rows)
    {
      SortedCount(keys);
      var updates := Updates(keys, values);
      assert |updates| == |values.Keys| == |values|;
      ok := UpdateTransaction(updates, fails);
    }

    /**
     * UpdateConfig. `running` is the state of the cell, `queryFails` the outcome of
     * the read, and `native` what another process may have put in the table between
     * the read and the transaction.
     */
    method UpdateConfig(values: map<string, string>, running: bool, queryFails: bool,
                        native: Option<seq<Row>>, fails: nat -> bool)
      returns (ok: bool)
      modifies this
      ensures ok == (Accepts(old(rows), values) && KeysOnce(Meanwhile(native, old(rows)), values)
                     && !running && !queryFails && forall k :: 0 <= k <= |values| + 1 ==> !fails(k))
      ensures ok ==> rows == Replaced(Meanwhile(native, old(rows)), values)
      ensures ok ==> Rebuilt(rows) == FromMap(RowMap(Meanwhile(native, old(rows))) + values)
      ensures ok ==> native.Some? || Valid(Rebuilt(rows))
      ensures !ok ==> rows == old(rows) || rows == Meanwhile(native, old(rows))
    {
      if |values| == 0 { return false; }
      if exists k :: k in values && !IsRadioKey(k) { return false; }
      var keys := SortKeys(values.Keys);
      if running || queryFails { return false; }
      var issue := ValidateMerged(rows, values);
      if native.Some? { rows := native.value; }
      if issue.Some? { return false; }
      ok := StoreValues(keys, values, fails);
      if ok { RebuiltAfter(Meanwhile(native, old(rows)), values); }
    }
  }

  function Meanwhile(native: Option<seq<Row>>, rows: seq<Row>): seq<Row> {
    if native.Some? then native.value else rows
  }

  /** The requests whose result would be a valid configuration. */
  ghost predicate Accepts(rows: seq<Row>, values: map<string, string>) {
    && values != map[] && (forall k :: k in values ==> IsRadioKey(k))
    && Valid(FromMap(RowMap(rows) + values))
  }

  /** The checking half of UpdateConfig: the table with the new values over it. */
  method ValidateMerged(rows: seq<Row>, values: map<string, string>) returns (issue: Option<Issue>)
    ensures issue.None? == Valid(FromMap(RowMap(rows) + values))
  {
    var merged := Merge(rows);
    merged := merged + values;
    issue := Validate(FromMap(merged));
  }

  method Merge(rows: seq<Row>) returns (merged: map<string, string>)
    ensures merged == RowMap(rows)
  {
    merged := map[];
    var i := 0;
    while i < |rows|
      invariant 0 <= i <= |rows| && merged == RowMap(rows[..i])
    {
      assert rows[..i + 1][..i] == rows[..i];
      merged := merged[rows[i].key := rows[i].value];
      i := i + 1;
    }
    assert rows[..i] == rows;
  }

  method Updates(keys: seq<string>, values: map<string, string>) returns (updates: seq<Row>)
    requires Elements(keys) == values.Keys
    ensures |updates| == |keys| && AsMap(updates) == values
    ensures forall rows :: AllOnce(rows, updates) <==> KeysOnce(rows, values)
  {
    updates := [];
    var i := 0;
    assert forall k :: 0 <= k < |keys| ==> keys[k] in Elements(keys);
    while i < |keys|
      invariant 0 <= i <= |keys| && |updates| == i
      invariant forall j :: 0 <= j < i ==> updates[j] == Row(keys[j], values[keys[j]])
    {
      updates := updates + [Row(keys[i], values[keys[i]])];
      i := i + 1;
    }
    UpdatesMap(keys, values, updates);
    forall rows ensures AllOnce(rows, updates) <==> KeysOnce(rows, values) {
      OnceIff(rows, keys, values, updates);
    }
  }

  lemma OnceIff(rows: seq<Row>, keys: seq<string>, values: map<string, string>, updates: seq<Row>)
    requires Elements(keys) == values.Keys && |updates| == |keys|
    requires forall j :: 0 <= j < |keys| ==> updates[j].key == keys[j]
    ensures AllOnce(rows, updates) <==> KeysOnce(rows, values)
  {
    assert forall j :: 0 <= j < |keys| ==> keys[j] in Elements(keys);
    if AllOnce(rows, updates) {
      forall k | k in values ensures CountKey(rows, k) == 1 {
        var j :| 0 <= j < |keys| && keys[j] == k;
        assert CountKey(rows, updates[j].key) == 1;
      }
    }
  }

  /** A map whose every row agrees with `values` is `values` restricted to the keys. */
  lemma {:induction false} RowMapAgrees(rows: seq<Row>, values: map<string, string>)
    requires forall j :: 0 <= j < |rows| ==> rows[j].key in values && rows[j].value == values[rows[j].key]
    ensures forall k :: k in RowMap(rows) ==> k in values && RowMap(rows)[k] == values[k]
  {
    if rows != [] { RowMapAgrees(rows[..|rows| - 1], values); }
  }

  lemma UpdatesMap(keys: seq<string>, values: map<string, string>, updates: seq<Row>)
    requires Elements(keys) == values.Keys && |updates| == |keys|
    requires forall j :: 0 <= j < |keys| ==> keys[j] in values && updates[j] == Row(keys[j], values[keys[j]])
    ensures AsMap(updates) == values
  {
    RowMapAgrees(updates, values);
    forall k | k in values ensures k in RowMap(updates) {
      assert k in Elements(keys);
      var j :| 0 <= j < |keys| && keys[j] == k;
      RowMapHas(updates, j);
    }
  }

  // ---- Applying a full parameter set -------------------------------------------------------

  function Settings(p: Params, n: nat): (r: seq<Row>)
    requires n <= |RADIO_KEYS|
    ensures |r| == n && forall i :: 0 <= i < n ==> r[i] == Row(Name(RADIO_KEYS[i]), Setting(p, RADIO_KEYS[i]))
  {
    seq(n, i requires 0 <= i < n => Row(Name(RADIO_KEYS[i]), Setting(p, RADIO_KEYS[i])))
  }

  ghost function KeyOf(name: string): Key
    requires IsRadioKey(name)
  {
    var k: Key :| Name(k) == name;
    k
  }

  ghost function Wanted(p: Params): map<string, string> {
    map name | name in (set k: Key | k in RADIO_KEYS :: Name(k)) :: Setting(p, KeyOf(name))
  }

  lemma EveryKey(k: Key)
    ensures k in RADIO_KEYS
  {
    assert RADIO_KEYS == [Arfcns, C0, Band, Mcc, Mnc, Lac, Ci, ShortName];
    match k
    case Arfcns => assert RADIO_KEYS[0] == k;
    case C0 => assert RADIO_KEYS[1] == k;
    case Band => assert RADIO_KEYS[2] == k;
    case Mcc => assert RADIO_KEYS[3] == k;
    case Mnc => assert RADIO_KEYS[4] == k;
    case Lac => assert RADIO_KEYS[5] == k;
    case Ci => assert RADIO_KEYS[6] == k;
    case ShortName => assert RADIO_KEYS[7] == k;
  }

  lemma WantedIs(p: Params, k: Key)
    ensures Name(k) in Wanted(p) && Wanted(p)[Name(k)] == Setting(p, k)
  {
    EveryKey(k);
    NameInjective(KeyOf(Name(k)), k);
  }

  /** The batch of applyConfigLocked sets each of the eight keys, and nothing else. */
  lemma SettingsMap(p: Params, k: Key)
    ensures var m := AsMap(Settings(p, |RADIO_KEYS|));
            && Name(k) in m && m[Name(k)] == Setting(p, k)
            && (forall name :: name in m ==> IsRadioKey(name))
  {
    var batch := Settings(p, |RADIO_KEYS|);
    forall i | 0 <= i < |batch| ensures batch[i].key in Wanted(p) && batch[i].value == Wanted(p)[batch[i].key] {
      WantedIs(p, RADIO_KEYS[i]);
    }
    RowMapAgrees(batch, Wanted(p));
    EveryKey(k);
    var i :| 0 <= i < |RADIO_KEYS| && RADIO_KEYS[i] == k;
    RowMapHas(batch, i);
    assert batch[i].key == Name(k);
    WantedIs(p, k);
  }

  lemma BatchOnce(p: Params, rows: seq<Row>)
    ensures AllOnce(rows, Settings(p, |RADIO_KEYS|)) ==> KeysOnce(rows, AsMap(Settings(p, |RADIO_KEYS|)))
    ensures AllOnce(rows, Settings(p, |RADIO_KEYS|)) <==> AllKeysOnce(rows)
  {
    var batch := Settings(p, |RADIO_KEYS|);
    if AllOnce(rows, batch) {
      forall k: Key ensures CountKey(rows, Name(k)) == 1 {
        EveryKey(k);
        var i :| 0 <= i < |RADIO_KEYS| && RADIO_KEYS[i] == k;
        assert batch[i].key == Name(k);
      }
    }
    if AllOnce(rows, batch) {
      forall name | name in AsMap(batch) ensures CountKey(rows, name) == 1 {
        SettingsMap(p, Arfcns);
        var k: Key :| Name(k) == name;
        EveryKey(k);
        var i :| 0 <= i < |RADIO_KEYS| && RADIO_KEYS[i] == k;
        assert batch[i].key == name;
      }
    }
  }

  lemma Applied(p: Params, rows: seq<Row>)
    requires AllOnce(rows, Settings(p, |RADIO_KEYS|))
    ensures Rebuilt(Replaced(rows, AsMap(Settings(p, |RADIO_KEYS|)))).(network := p.network) == p
  {
    var m := AsMap(Settings(p, |RADIO_KEYS|));
    BatchOnce(p, rows);
    RebuiltAfter(rows, m);
    forall k: Key ensures Lookup(RowMap(rows) + m, k) == Setting(p, k) {
      SettingsMap(p, k);
    }
    assert Setting(p, Arfcns) == p.arfcns && Setting(p, C0) == p.c0 && Setting(p, Band) == p.band;
  }

  /** No row added, removed or moved. */
  ghost predicate SameKeys(a: seq<Row>, b: seq<Row>) {
    |a| == |b| && forall i :: 0 <= i < |a| ==> a[i].key == b[i].key
  }

  lemma {:induction false} SameCount(a: seq<Row>, b: seq<Row>, key: string)
    requires SameKeys(a, b)
    ensures CountKey(a, key) == CountKey(b, key)
    decreases |a|
  {
    if a != [] { SameCount(a[..|a| - 1], b[..|b| - 1], key); }
  }

  lemma StillOnce(a: seq<Row>, b: seq<Row>)
    requires SameKeys(a, b) && AllKeysOnce(a)
    ensures AllKeysOnce(b)
  {
    forall k: Key ensures CountKey(b, Name(k)) == 1 {
      SameCount(a, b, Name(k));
    }
  }

  // ---- A full table, and a foreign write ------------------------------------------------------

  ghost predicate AllKeysOnce(rows: seq<Row>) { forall k: Key :: CountKey(rows, Name(k)) == 1 }

  lemma {:induction false} OnceEach(p: Params, n: nat, k: Key)
    requires n <= |RADIO_KEYS|
    ensures CountKey(Settings(p, n), Name(k)) == (if k in RADIO_KEYS[..n] then 1 else 0)
    decreases n
  {
    if n > 0 {
      OnceEach(p, n - 1, k);
      OneMoreSetting(p, n, k);
      KeysDiffer(n - 1);
    }
  }

  lemma OneMoreSetting(p: Params, n: nat, k: Key)
    requires 0 < n <= |RADIO_KEYS|
    ensures CountKey(Settings(p, n), Name(k)) == CountKey(Settings(p, n - 1), Name(k)) + (if RADIO_KEYS[n - 1] == k then 1 else 0)
    ensures k in RADIO_KEYS[..n] <==> k in RADIO_KEYS[..n - 1] || RADIO_KEYS[n - 1] == k
  {
    assert Settings(p, n)[..n - 1] == Settings(p, n - 1);
    PrefixStep(RADIO_KEYS, n - 1);
    if Name(RADIO_KEYS[n - 1]) == Name(k) { NameInjective(RADIO_KEYS[n - 1], k); }
  }

  lemma KeysDiffer(n: nat)
    requires n < |RADIO_KEYS|
    ensures RADIO_KEYS[n] !in RADIO_KEYS[..n]
  {
  }

  lemma FullTable(p: Params)
    ensures AllKeysOnce(Settings(p, |RADIO_KEYS|))
  {
    forall k: Key ensures CountKey(Settings(p, |RADIO_KEYS|), Name(k)) == 1 {
      OnceEach(p, |RADIO_KEYS|, k);
      EveryKey(k);
      assert RADIO_KEYS[..|RADIO_KEYS|] == RADIO_KEYS;
    }
  }

  lemma FullTableShows(p: Params)
    ensures Rebuilt(Settings(p, |RADIO_KEYS|)) == p.(network := "lo")
  {
    forall k: Key ensures Lookup(RowMap(Settings(p, |RADIO_KEYS|)), k) == Setting(p, k) {
      SettingsMap(p, k);
    }
    var q := Rebuilt(Settings(p, |RADIO_KEYS|));
    assert forall k: Key :: Setting(q, k) == Lookup(RowMap(Settings(p, |RADIO_KEYS|)), k);
    assert Setting(q, Arfcns) == p.arfcns && Setting(q, C0) == p.c0 && Setting(q, Band) == p.band && Setting(q, Mcc) == p.mcc;
    assert Setting(q, Mnc) == p.mnc && Setting(q, Lac) == p.lac && Setting(q, Ci) == p.ci && Setting(q, ShortName) == p.shortName;
  }

  lemma NewC0(p: Params, c0: string)
    ensures FromMap(RowMap(Settings(p, |RADIO_KEYS|)) + map[Name(C0) := c0]) == p.(network := "lo", c0 := c0)
  {
    FullTableShows(p);
    forall k: Key | k != C0 ensures Name(k) != Name(C0) {
      if Name(k) == Name(C0) { NameInjective(k, C0); }
    }
  }

  lemma LoopbackIsValid()
    ensures ValidInterfaceName("lo")
  {
    AsciiLength("lo");
  }

  /**
   * If another process changes the band between the check and the transaction,
   * the batch may succeed and leave a configuration that is not valid.
   */
  method ForeignWriteBreaksValidity(p: Params, foreign: Params, c0: string) returns (ok: bool, table: ConfigTable)
    requires Valid(p) && ValidC0(c0, p.band) && !ValidC0(c0, foreign.band)
    ensures ok && !Valid(Rebuilt(table.rows))
  {
    FullTable(p);
    FullTable(foreign);
    NewC0(p, c0);
    NewC0(foreign, c0);
    LoopbackIsValid();
    table := new ConfigTable(Settings(p, |RADIO_KEYS|));
    var request := map[Name(C0) := c0];
    assert IsRadioKey(Name(C0)) && Name(C0) in request;
    ok := table.UpdateConfig(request, false, false, Some(Settings(foreign, |RADIO_KEYS|)), k => false);
  }
}
