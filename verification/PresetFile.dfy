/**
 * Presets and their file format (internal/gsm/presets.go, internal/gsm/preset_defaults.go):
 * which bytes a store can load, what it loads from them, and the built-in presets.
 */
module PresetFile {
  import opened Common
  import Utf8
  import opened Strings
  import opened RadioParams

  const MAX_FILE_BYTES: nat := 0x10_0000
  const MAX_PRESETS: nat := 256
  const MAX_NAME_BYTES: nat := 128
  const MAX_DESCRIPTION_BYTES: nat := 2048

  datatype Preset = Preset(id: string, name: string, description: string, params: Params)

  type Items = map<string, Preset>

  predicate IdChar(c: char) { 'a' <= c <= 'z' || '0' <= c <= '9' }

  predicate ValidId(id: string) {
    && 1 <= |id| <= 64 && IdChar(id[0])
    && (forall i :: 1 <= i < |id| ==> IdChar(id[i]) || id[i] == '_' || id[i] == '-')
  }

  predicate ValidPreset(p: Preset) {
    && ValidId(p.id)
    && TrimSpace(p.name) != "" && ByteLength(p.name) <= MAX_NAME_BYTES
    && ByteLength(p.description) <= MAX_DESCRIPTION_BYTES
    && Valid(p.params)
  }

  /** Each key is its item's ID, every item is valid, and there is room for all of them. */
  ghost predicate WellFormed(items: Items) {
    Keyed(items) && |items| <= MAX_PRESETS
  }

  ghost predicate Keyed(items: Items) {
    forall id :: id in items ==> items[id].id == id && ValidPreset(items[id])
  }

  // ---- The file ------------------------------------------------------------------------

  datatype Document = Document(version: int, items: seq<Preset>)

  /**
   * The JSON text of a document. Decoding stands for the whole strict reading:
   * no repeated or unknown names, an items array, nothing after the object.
   */
  datatype Codec = Codec(encode: Document -> seq<byte>, decode: seq<byte> -> Option<Document>)

  ghost predicate AllValid(list: seq<Preset>) { forall i :: 0 <= i < |list| ==> ValidPreset(list[i]) }

  /** What is written reads back. */
  ghost predicate Lawful(codec: Codec) {
    forall list: seq<Preset> :: AllValid(list) ==>
      codec.decode(codec.encode(Document(2, list)) + [NL]) == Some(Document(2, list))
  }

  datatype File = Missing | Regular(bytes: seq<byte>) | Special

  /** What a file means to a store that opens it. */
  datatype Contents = Unset | Bad | V1(items: Items) | V2(items: Items)

  function Ids(list: seq<Preset>): (r: seq<string>)
    ensures |r| == |list| && forall i :: 0 <= i < |r| ==> r[i] == list[i].id
  {
    seq(|list|, i requires 0 <= i < |list| => list[i].id)
  }

  ghost predicate Distinct(list: seq<Preset>) {
    forall i, j :: 0 <= i < j < |list| ==> list[i].id != list[j].id
  }

  ghost predicate ItemsOk(list: seq<Preset>) { AllValid(list) && Distinct(list) }

  function ToMap(list: seq<Preset>): Items {
    if list == [] then map[] else ToMap(list[..|list| - 1])[list[|list| - 1].id := list[|list| - 1]]
  }

  ghost function Parse(codec: Codec, file: File): Contents {
    match file
    case Missing => Unset
    case Special => Bad
    case Regular(bytes) =>
      if |bytes| > MAX_FILE_BYTES then Bad
      else match codec.decode(bytes)
        case None => Bad
        case Some(doc) =>
          if (doc.version != 1 && doc.version != 2) || |doc.items| > MAX_PRESETS || !ItemsOk(doc.items) then Bad
          else if doc.version == 1 then V1(ToMap(doc.items))
          else V2(ToMap(doc.items))
  }

  /** The items of a list, each under its own ID and nothing else. */
  ghost predicate Holds(items: Items, list: seq<Preset>) {
    && (forall p :: p in list ==> p.id in items && items[p.id] == p)
    && (forall id :: id in items ==> items[id] in list && items[id].id == id)
  }

  /** What a store accepts, and as what. */
  lemma ParseMeans(codec: Codec, file: File)
    ensures Parse(codec, file).Unset? <==> file.Missing?
    ensures
      var c := Parse(codec, file);
      c.V1? || c.V2? <==>
        && file.Regular? && |file.bytes| <= 1048576 && codec.decode(file.bytes).Some?
        && var doc := codec.decode(file.bytes).value;
           (doc.version == 1 || doc.version == 2) && |doc.items| <= 256
           && (forall p :: p in doc.items ==> ValidPreset(p))
           && (forall i, j :: 0 <= i < j < |doc.items| ==> doc.items[i].id != doc.items[j].id)
    ensures
      var c := Parse(codec, file);
      c.V1? || c.V2? ==>
        var doc := codec.decode(file.bytes).value;
        (c.V1? <==> doc.version == 1) && Holds(c.items, doc.items)
  {
    if file.Regular? && codec.decode(file.bytes).Some? {
      var list := codec.decode(file.bytes).value.items;
      assert AllValid(list) <==> forall p :: p in list ==> ValidPreset(p);
      if ItemsOk(list) { HoldsAll(list); }
    }
  }

  lemma HoldsAll(list: seq<Preset>)
    requires Distinct(list)
    ensures Holds(ToMap(list), list)
  {
    ToMapKeys(list);
    forall p | p in list ensures p.id in ToMap(list) && ToMap(list)[p.id] == p {
      var i :| 0 <= i < |list| && list[i] == p;
      ToMapAt(list, i);
    }
  }

  /** Which presets are acceptable, in full. */
  lemma PresetMeans(p: Preset)
    ensures ValidPreset(p) <==>
              && 1 <= |p.id| <= 64 && (p.id[0] in LOWER || p.id[0] in DIGITS)
              && (forall i :: 0 <= i < |p.id| ==> p.id[i] in LOWER || p.id[i] in DIGITS || p.id[i] in "_-")
              && !AllSpace(p.name) && |Utf8.Encode(Scalars(p.name))| <= 128
              && |Utf8.Encode(Scalars(p.description))| <= 2048
              && Valid(p.params)
  {
    IdMeans(p.id);
    TrimMeans(p.name, "");
    BlankIsStripped(p.name);
    ByteLengthMeans(p.name);
    ByteLengthMeans(p.description);
  }

  lemma IdMeans(id: string)
    ensures ValidId(id) <==>
              && 1 <= |id| <= 64 && (id[0] in LOWER || id[0] in DIGITS)
              && (forall i :: 0 <= i < |id| ==> id[i] in LOWER || id[i] in DIGITS || id[i] in "_-")
  {
    forall c: char ensures IdChar(c) <==> c in LOWER || c in DIGITS { Alphabets(c); }
  }

  lemma {:induction false} ToMapKeys(list: seq<Preset>)
    ensures |ToMap(list)| <= |list| && ToMap(list).Keys == Elements(Ids(list))
    ensures forall id :: id in ToMap(list) ==> ToMap(list)[id] in list && ToMap(list)[id].id == id
  {
    if list != [] {
      var init, last := list[..|list| - 1], list[|list| - 1];
      ToMapKeys(init);
      assert list == init + [last];
      assert Ids(list) == Ids(init) + [last.id];
      assert ToMap(list).Keys == ToMap(init).Keys + {last.id};
      assert |ToMap(list).Keys| <= |ToMap(init).Keys| + 1;
    }
  }

  lemma ToMapMeaning(list: seq<Preset>)
    requires AllValid(list)
    ensures Keyed(ToMap(list)) && |ToMap(list)| <= |list|
  {
    ToMapKeys(list);
    forall id | id in ToMap(list) ensures ValidPreset(ToMap(list)[id]) {
      var i :| 0 <= i < |list| && list[i] == ToMap(list)[id];
    }
  }

  lemma {:induction false} ToMapAt(list: seq<Preset>, i: nat)
    requires Distinct(list) && i < |list|
    ensures list[i].id in ToMap(list) && ToMap(list)[list[i].id] == list[i]
  {
    if i < |list| - 1 { ToMapAt(list[..|list| - 1], i); }
  }

  /** Whatever loads is well formed. */
  lemma ParsedIsWellFormed(codec: Codec, file: File)
    ensures var c := Parse(codec, file); (c.V1? || c.V2?) ==> WellFormed(c.items)
  {
    var c := Parse(codec, file);
    if c.V1? || c.V2? {
      ToMapMeaning(codec.decode(file.bytes).value.items);
    }
  }

  // ---- Writing ---------------------------------------------------------------------------

  /** The items in the order of their IDs. */
  ghost predicate IsOrdered(items: Items, list: seq<Preset>) {
    && Sorted(Ids(list)) && Elements(Ids(list)) == items.Keys
    && (forall i :: 0 <= i < |list| ==> list[i].id in items && items[list[i].id] == list[i])
  }

  /** The bytes persist writes for these items. */
  ghost predicate IsImage(codec: Codec, items: Items, bytes: seq<byte>) {
    exists list :: IsOrdered(items, list) && bytes == codec.encode(Document(2, list)) + [NL]
  }

  lemma OrderedMap(items: Items, list: seq<Preset>)
    requires IsOrdered(items, list)
    ensures Distinct(list) && ToMap(list) == items
  {
    var ids := Ids(list);
    forall i, j | 0 <= i < j < |list| ensures list[i].id != list[j].id {
      assert Less(ids[i], ids[j]);
      LessTotal(ids[i], ids[j]);
    }
    ToMapKeys(list);
    forall id | id in items ensures ToMap(list)[id] == items[id] {
      assert id in Elements(ids);
      var i :| 0 <= i < |ids| && ids[i] == id;
      ToMapAt(list, i);
    }
  }

  lemma OrderedItems(items: Items, list: seq<Preset>)
    requires WellFormed(items) && IsOrdered(items, list)
    ensures ItemsOk(list) && ToMap(list) == items && |list| <= MAX_PRESETS
  {
    OrderedMap(items, list);
    DistinctCount(list);
  }

  lemma {:induction false} DistinctCount(list: seq<Preset>)
    requires Distinct(list)
    ensures |ToMap(list)| == |list|
  {
    if list != [] {
      var init, last := list[..|list| - 1], list[|list| - 1];
      DistinctCount(init);
      ToMapKeys(init);
      assert last.id !in Ids(init);
      assert ToMap(list).Keys == ToMap(init).Keys + {last.id};
      assert |ToMap(list)| == |ToMap(list).Keys|;
    }
  }

  /** What persist writes, load reads back: the same items, and never a migration. */
  lemma ImageLoads(codec: Codec, items: Items, bytes: seq<byte>)
    requires Lawful(codec) && WellFormed(items) && IsImage(codec, items, bytes) && |bytes| <= MAX_FILE_BYTES
    ensures Parse(codec, Regular(bytes)) == V2(items)
  {
    var list :| IsOrdered(items, list) && bytes == codec.encode(Document(2, list)) + [NL];
    OrderedItems(items, list);
  }

  // ---- The built-in presets ----------------------------------------------------------------

  function DefaultPreset(id: string, name: string, band: string, c0: string, mcc: string, mnc: string): Preset {
    Preset(id, name, "", Params("1", c0, band, mcc, mnc, "1", "1", name, "eth0"))
  }

  function DefaultPresets(): seq<Preset> {
    [ DefaultPreset("0", "addx", "1800", "540", "001", "01"),
      DefaultPreset("1", "ChinaMobile", "900", "55", "460", "00"),
      DefaultPreset("2", "ChinaMobile", "1800", "540", "460", "00"),
      DefaultPreset("3", "ChinaUnicom", "900", "70", "460", "01"),
      DefaultPreset("4", "ChinaUnicom", "1800", "668", "460", "01") ]
  }

  /** The built-in presets, in full. */
  lemma DefaultTable(list: seq<Preset>)
    requires list == DefaultPresets()
    ensures |list| == 5
    ensures list[0] == Preset("0", "addx", "", Params("1", "540", "1800", "001", "01", "1", "1", "addx", "eth0"))
    ensures list[1] == Preset("1", "ChinaMobile", "", Params("1", "55", "900", "460", "00", "1", "1", "ChinaMobile", "eth0"))
    ensures list[2] == Preset("2", "ChinaMobile", "", Params("1", "540", "1800", "460", "00", "1", "1", "ChinaMobile", "eth0"))
    ensures list[3] == Preset("3", "ChinaUnicom", "", Params("1", "70", "900", "460", "01", "1", "1", "ChinaUnicom", "eth0"))
    ensures list[4] == Preset("4", "ChinaUnicom", "", Params("1", "668", "1800", "460", "01", "1", "1", "ChinaUnicom", "eth0"))
  {
  }

  /** The ID of a built-in preset. */
  ghost predicate IsBuiltIn(id: string) { exists p :: p in DefaultPresets() && p.id == id }

  predicate PlainName(s: string) {
    1 <= |s| <= 32 && forall i :: 0 <= i < |s| ==> IdChar(s[i]) || 'A' <= s[i] <= 'Z'
  }

  lemma DefaultIsValid(id: string, name: string, band: string, c0: string, mcc: string, mnc: string)
    requires |id| == 1 && IdChar(id[0]) && PlainName(name)
    requires (band == "900" || band == "1800") && ValidC0(c0, band)
    requires |mcc| == 3 && IsDigits(mcc) && |mnc| == 2 && IsDigits(mnc)
    ensures ValidPreset(DefaultPreset(id, name, band, c0, mcc, mnc))
  {
    TrimSolid(name);
    AsciiLength(name);
    AsciiLength("eth0");
    assert Value("1") == 10 * Value("1"[..0]) + 1;
  }

  lemma C0s()
    ensures ValidC0("540", "1800") && ValidC0("668", "1800") && ValidC0("55", "900") && ValidC0("70", "900")
  {
    Digits3("540");
    Digits3("668");
    Digits2("55");
    Digits2("70");
    assert "900" != "1800" by { assert |"900"| != |"1800"|; }
  }

  lemma Digits2(s: string)
    requires IsDigits(s) && |s| == 2
    ensures Value(s) == 10 * (s[0] as int - '0' as int) + (s[1] as int - '0' as int)
  {
    assert s[..1] == [s[0]];
    assert Value([s[0]]) == 10 * Value([s[0]][..0]) + (s[0] as int - '0' as int);
  }

  lemma Digits3(s: string)
    requires IsDigits(s) && |s| == 3
    ensures Value(s) == 100 * (s[0] as int - '0' as int) + 10 * (s[1] as int - '0' as int) + (s[2] as int - '0' as int)
  {
    Digits2(s[..2]);
  }

  lemma PlainNames()
    ensures PlainName("addx") && PlainName("ChinaMobile") && PlainName("ChinaUnicom")
  {
  }

  lemma Codes()
    ensures IsDigits("001") && IsDigits("460") && IsDigits("00") && IsDigits("01")
  {
  }

  lemma DefaultValid0() ensures ValidPreset(DefaultPresets()[0]) {
    C0s();
    PlainNames();
    Codes();
    DefaultIsValid("0", "addx", "1800", "540", "001", "01");
  }

  lemma DefaultValid1() ensures ValidPreset(DefaultPresets()[1]) {
    C0s();
    PlainNames();
    Codes();
    DefaultIsValid("1", "ChinaMobile", "900", "55", "460", "00");
  }

  lemma DefaultValid2() ensures ValidPreset(DefaultPresets()[2]) {
    C0s();
    PlainNames();
    Codes();
    DefaultIsValid("2", "ChinaMobile", "1800", "540", "460", "00");
  }

  lemma DefaultValid3() ensures ValidPreset(DefaultPresets()[3]) {
    C0s();
    PlainNames();
    Codes();
    DefaultIsValid("3", "ChinaUnicom", "900", "70", "460", "01");
  }

  lemma DefaultValid4() ensures ValidPreset(DefaultPresets()[4]) {
    C0s();
    PlainNames();
    Codes();
    DefaultIsValid("4", "ChinaUnicom", "1800", "668", "460", "01");
  }

  lemma DefaultsAllValid()
    ensures AllValid(DefaultPresets())
  {
    DefaultValid0();
    DefaultValid1();
    DefaultValid2();
    DefaultValid3();
    DefaultValid4();
    AllFive(DefaultPresets());
  }

  lemma AllFive(list: seq<Preset>)
    requires |list| == 5 && ValidPreset(list[0]) && ValidPreset(list[1]) && ValidPreset(list[2])
    requires ValidPreset(list[3]) && ValidPreset(list[4])
    ensures AllValid(list)
  {
    forall i | 0 <= i < |list| ensures ValidPreset(list[i]) {
      assert i == 0 || i == 1 || i == 2 || i == 3 || i == 4;
    }
  }

  /** Initialization and migration only ever add valid presets with distinct IDs. */
  lemma DefaultsAreValid(list: seq<Preset>)
    requires list == DefaultPresets()
    ensures ItemsOk(list) && |list| == 5 && WellFormed(ToMap(list))
  {
    DefaultIds();
    DefaultsAllValid();
    ToMapMeaning(list);
  }

  lemma DefaultIds()
    ensures forall i, j :: 0 <= i < j < |DefaultPresets()| ==> DefaultPresets()[i].id != DefaultPresets()[j].id
  {
    var d := DefaultPresets();
    assert d[0].id[0] == '0' && d[1].id[0] == '1' && d[2].id[0] == '2' && d[3].id[0] == '3' && d[4].id[0] == '4';
    forall i, j | 0 <= i < j < |d| ensures d[i].id != d[j].id {
      assert d[i].id[0] != d[j].id[0];
    }
  }

  /** A version-1 file keeps every item of its own and gains only the defaults it lacks. */
  function Migrated(items: Items): Items { ToMap(DefaultPresets()) + items }

  lemma MigratedKeyed(items: Items, defaults: Items)
    requires Keyed(items) && Keyed(defaults)
    ensures Keyed(defaults + items)
  {
  }
}
