/** The nine parameters of a cell and what makes them acceptable (internal/gsm/gsm.go). */
module RadioParams {
  import opened Common
  import opened Strings

  datatype Params = Params(
    arfcns: string, c0: string, band: string, mcc: string, mnc: string,
    lac: string, ci: string, shortName: string, network: string)

  datatype Issue = Issue(field: string, reason: string)

  // ---- What the parameters must satisfy ---------------------------------------------------

  const MAX_INT: int := 0x7FFF_FFFF_FFFF_FFFF

  predicate InBand(band: string, n: int) {
    && (band == "900" ==> 0 <= n <= 124 || 975 <= n <= 1023)
    && (band == "1800" ==> 512 <= n <= 885)
  }

  predicate ValidC0(c0: string, band: string) {
    IsDigits(c0) && Value(c0) <= MAX_INT && InBand(band, Value(c0))
  }

  predicate NumberBetween(s: string, low: int, high: int) {
    IsDigits(s) && low <= Value(s) <= high
  }

  predicate ValidInterfaceName(name: string) {
    && 1 <= ByteLength(name) <= 15 && name != "." && name != ".."
    && (forall i :: 0 <= i < |name| ==> InterfaceChar(name[i]))
  }

  predicate InterfaceChar(c: char) {
    'a' <= c <= 'z' || 'A' <= c <= 'Z' || '0' <= c <= '9' || c == '_' || c == '-' || c == '.'
  }

  predicate ShortNameChar(c: char) {
    ' ' <= c <= '~' && c !in {'"', '\'', ';', '#', '$', '`', '\\'}
  }

  predicate ValidShortName(s: string) {
    s != "" && ByteLength(s) <= 32 && forall i :: 0 <= i < |s| ==> ShortNameChar(s[i])
  }

  predicate Valid(p: Params) {
    && p.arfcns == "1" && ValidC0(p.c0, p.band) && (p.band == "900" || p.band == "1800")
    && |p.mcc| == 3 && IsDigits(p.mcc)
    && (|p.mnc| == 2 || |p.mnc| == 3) && IsDigits(p.mnc)
    && NumberBetween(p.lac, 1, 65279) && NumberBetween(p.ci, 0, 65535)
    && ValidShortName(p.shortName) && ValidInterfaceName(p.network)
  }

  /** Which parameters are acceptable, in full. */
  lemma ValidMeans(p: Params)
    ensures Valid(p) <==>
              p.arfcns == "1" && CarrierIn(p.c0, p.band) && AreCodes(p.mcc, p.mnc, p.lac, p.ci)
              && PrintableName(p.shortName) && DeviceName(p.network)
  {
    CarrierMeans(p.c0, p.band);
    ShortNameMeans(p.shortName);
    InterfaceMeans(p.network);
    assert AreCodes(p.mcc, p.mnc, p.lac, p.ci) <==>
           && |p.mcc| == 3 && IsDigits(p.mcc)
           && (|p.mnc| == 2 || |p.mnc| == 3) && IsDigits(p.mnc)
           && NumberBetween(p.lac, 1, 65279) && NumberBetween(p.ci, 0, 65535);
  }

  predicate AreCodes(mcc: string, mnc: string, lac: string, ci: string) {
    && IsDigits(mcc) && |mcc| == 3 && IsDigits(mnc) && 2 <= |mnc| <= 3
    && IsDigits(lac) && 1 <= Value(lac) <= 65279 && IsDigits(ci) && Value(ci) <= 65535
  }

  predicate CarrierIn(c0: string, band: string) {
    IsDigits(c0) && ((band == "900" && (Value(c0) <= 124 || 975 <= Value(c0) <= 1023)) || (band == "1800" && 512 <= Value(c0) <= 885))
  }

  lemma CarrierMeans(c0: string, band: string)
    ensures CarrierIn(c0, band) <==> ValidC0(c0, band) && (band == "900" || band == "1800")
  {
    assert "900" != "1800" by { assert |"900"| != |"1800"|; }
  }

  /** Printable ASCII but for seven characters; so bytes can be counted as characters. */
  predicate PrintableName(s: string) {
    1 <= |s| <= 32 && forall i :: 0 <= i < |s| ==> 32 <= s[i] as int <= 126 && s[i] !in "\"';#$`\\"
  }

  lemma ShortNameMeans(s: string)
    ensures ValidShortName(s) <==> PrintableName(s)
  {
    assert forall c :: ShortNameChar(c) <==> 32 <= c as int <= 126 && c !in "\"';#$`\\";
    if forall i :: 0 <= i < |s| ==> ShortNameChar(s[i]) { AsciiLength(s); }
  }

  predicate DeviceChar(c: char) { c in LOWER || c in UPPER || c in DIGITS || c in "_-." }

  predicate DeviceName(s: string) {
    1 <= |s| <= 15 && s != "." && s != ".." && forall i :: 0 <= i < |s| ==> DeviceChar(s[i])
  }

  lemma InterfaceMeans(s: string)
    ensures ValidInterfaceName(s) <==> DeviceName(s)
  {
    forall c: char ensures InterfaceChar(c) <==> DeviceChar(c) { Alphabets(c); }
    if forall i :: 0 <= i < |s| ==> InterfaceChar(s[i]) { AsciiLength(s); }
  }

  // ---- Validation -----------------------------------------------------------------------

  /** strconv.Atoi on digits: values beyond the native integer are errors. */
  function Atoi(s: string): Option<int>
    requires IsDigits(s)
  {
    if Value(s) <= MAX_INT then Some(Value(s)) else None
  }

  function ArfcnsReason(s: string): (r: string)
    ensures r == "" <==> s == "1"
  {
    if TrimSpace(s) == "" then "required"
    else if !IsDigits(s) then "must be digits"
    else if s != "1" then "this UHD transceiver supports one carrier only"
    else ""
  }

  function C0Reason(c0: string, band: string): (r: string)
    ensures r == "" <==> ValidC0(c0, band)
  {
    if TrimSpace(c0) == "" then Blank(c0); "required"
    else if !IsDigits(c0) then "must be digits"
    else
      var n := Atoi(c0);
      if n.None? || (band == "900" && !((n.value >= 0 && n.value <= 124) || (n.value >= 975 && n.value <= 1023)))
         || (band == "1800" && !(n.value >= 512 && n.value <= 885))
      then "outside the selected GSM band channel range"
      else ""
  }

  function RangeReason(s: string, low: int, high: int, reason: string): (r: string)
    requires reason != "" && high <= MAX_INT
    ensures r == "" <==> NumberBetween(s, low, high)
  {
    if TrimSpace(s) == "" then Blank(s); "required"
    else if !IsDigits(s) then "must be digits"
    else
      var n := Atoi(s);
      if n.None? || n.value < low || n.value > high then reason else ""
  }

  lemma Blank(s: string)
    requires TrimSpace(s) == ""
    ensures !IsDigits(s)
  {
    if IsDigits(s) { DigitsSolid(s); }
  }

  function BandReason(band: string): (r: string)
    ensures r == "" <==> (band == "900" || band == "1800")
  {
    if band != "900" && band != "1800" then "must be 900 or 1800" else ""
  }

  function MccReason(mcc: string): (r: string)
    ensures r == "" <==> |mcc| == 3 && IsDigits(mcc)
  {
    DigitsLength(mcc);
    if ByteLength(mcc) != 3 || !IsDigits(mcc) then "must be 3 digits" else ""
  }

  function MncReason(mnc: string): (r: string)
    ensures r == "" <==> (|mnc| == 2 || |mnc| == 3) && IsDigits(mnc)
  {
    DigitsLength(mnc);
    if !(ByteLength(mnc) == 2 || ByteLength(mnc) == 3) || !IsDigits(mnc) then "must be 2 or 3 digits" else ""
  }

  lemma DigitsLength(s: string)
    ensures IsDigits(s) ==> ByteLength(s) == |s|
  {
    if IsDigits(s) { DigitsSolid(s); }
  }

  function LacReason(lac: string): (r: string)
    ensures r == "" <==> NumberBetween(lac, 1, 65279)
  {
    RangeReason(lac, 1, 65279, "must be 1-65279 for this OpenBTS compatibility profile")
  }

  function CiReason(ci: string): (r: string)
    ensures r == "" <==> NumberBetween(ci, 0, 65535)
  {
    RangeReason(ci, 0, 65535, "must be 0-65535")
  }

  function ShortNameReason(s: string): (r: string)
    ensures r == "" <==> ValidShortName(s)
  {
    if s == "" then "required"
    else if ByteLength(s) > 32 then "must be 1-32 chars"
    else if exists i :: 0 <= i < |s| && !ShortNameChar(s[i]) then "illegal character"
    else ""
  }

  function NetworkReason(s: string): (r: string)
    ensures r == "" <==> ValidInterfaceName(s)
  {
    if TrimSpace(s) == "" then BlankName(s); "required"
    else if !ValidInterfaceName(s) then "illegal characters"
    else ""
  }

  lemma BlankName(s: string)
    requires TrimSpace(s) == ""
    ensures !ValidInterfaceName(s)
  {
    if ValidInterfaceName(s) { TrimSolid(s); }
  }

  /** Blank comes first, then anything but digits, then the range. */
  function Verdict(s: string, inRange: bool, otherwise: string): string {
    if AllSpace(s) then "required" else if !IsDigits(s) then "must be digits" else if inRange then "" else otherwise
  }

  lemma ReasonsMean(p: Params)
    ensures ArfcnsReason(p.arfcns) == Verdict(p.arfcns, p.arfcns == "1", "this UHD transceiver supports one carrier only")
    ensures C0Reason(p.c0, p.band) == Verdict(p.c0, ValidC0(p.c0, p.band), "outside the selected GSM band channel range")
    ensures LacReason(p.lac)
            == Verdict(p.lac, NumberBetween(p.lac, 1, 65279), "must be 1-65279 for this OpenBTS compatibility profile")
    ensures CiReason(p.ci) == Verdict(p.ci, NumberBetween(p.ci, 0, 65535), "must be 0-65535")
    ensures NetworkReason(p.network)
            == (if AllSpace(p.network) then "required" else if DeviceName(p.network) then "" else "illegal characters")
    ensures BandReason(p.band) == "" || BandReason(p.band) == "must be 900 or 1800"
    ensures MccReason(p.mcc) == "" || MccReason(p.mcc) == "must be 3 digits"
    ensures MncReason(p.mnc) == "" || MncReason(p.mnc) == "must be 2 or 3 digits"
  {
    BlankMeans(p.arfcns);
    BlankMeans(p.c0);
    BlankMeans(p.lac);
    BlankMeans(p.ci);
    BlankMeans(p.network);
    InterfaceMeans(p.network);
  }

  lemma BlankMeans(s: string)
    ensures TrimSpace(s) == "" <==> AllSpace(s)
  {
    TrimMeans(s, "");
    BlankIsStripped(s);
  }

  function Fields(issues: seq<Issue>): (r: seq<string>)
    ensures |r| == |issues|
  {
    seq(|issues|, i requires 0 <= i < |issues| => issues[i].field)
  }

  function If(bad: bool, field: string): seq<string> { if bad then [field] else [] }

  /** The unacceptable fields, in the order they are reported. */
  function Rejected(p: Params): (r: seq<string>)
    ensures r == [] <==> Valid(p)
  {
    If(p.arfcns != "1", "arfcns") + If(!ValidC0(p.c0, p.band), "c0")
    + If(p.band != "900" && p.band != "1800", "band")
    + If(!(|p.mcc| == 3 && IsDigits(p.mcc)), "mcc")
    + If(!((|p.mnc| == 2 || |p.mnc| == 3) && IsDigits(p.mnc)), "mnc")
    + If(!NumberBetween(p.lac, 1, 65279), "lac") + If(!NumberBetween(p.ci, 0, 65535), "ci")
    + If(!ValidShortName(p.shortName), "short_name") + If(!ValidInterfaceName(p.network), "network")
  }

  function Said(field: string, reason: string): seq<Issue> { if reason == "" then [] else [Issue(field, reason)] }

  /** What is reported about each field: blank, malformed or out of range, in this order of precedence. */
  function Report(p: Params): seq<Issue> {
    Said("arfcns", ArfcnsReason(p.arfcns)) + Said("c0", C0Reason(p.c0, p.band)) + Said("band", BandReason(p.band))
    + Said("mcc", MccReason(p.mcc)) + Said("mnc", MncReason(p.mnc)) + Said("lac", LacReason(p.lac)) + Said("ci", CiReason(p.ci))
    + Said("short_name", ShortNameReason(p.shortName)) + Said("network", NetworkReason(p.network))
  }

  lemma FieldsMore(issues: seq<Issue>, field: string, reason: string)
    ensures Fields(issues + Said(field, reason)) == Fields(issues) + If(reason != "", field)
  {
  }

  /** Exactly the unacceptable fields are reported. */
  lemma ReportMeaning(p: Params)
    ensures Fields(Report(p)) == Rejected(p) && (Report(p) == [] <==> Valid(p))
  {
    var a := Said("arfcns", ArfcnsReason(p.arfcns));
    var b := a + Said("c0", C0Reason(p.c0, p.band));
    var c := b + Said("band", BandReason(p.band));
    var d := c + Said("mcc", MccReason(p.mcc));
    var e := d + Said("mnc", MncReason(p.mnc));
    var f := e + Said("lac", LacReason(p.lac));
    var g := f + Said("ci", CiReason(p.ci));
    var h := g + Said("short_name", ShortNameReason(p.shortName));
    assert Fields(a) == If(p.arfcns != "1", "arfcns");
    FieldsMore(a, "c0", C0Reason(p.c0, p.band));
    FieldsMore(b, "band", BandReason(p.band));
    FieldsMore(c, "mcc", MccReason(p.mcc));
    FieldsMore(d, "mnc", MncReason(p.mnc));
    FieldsMore(e, "lac", LacReason(p.lac));
    FieldsMore(f, "ci", CiReason(p.ci));
    FieldsMore(g, "short_name", ShortNameReason(p.shortName));
    FieldsMore(h, "network", NetworkReason(p.network));
    assert |Fields(Report(p))| == |Report(p)|;
  }

  method Add(issues: seq<Issue>, field: string, reason: string) returns (r: seq<Issue>)
    ensures r == issues + Said(field, reason)
  {
    r := if reason == "" then issues else issues + [Issue(field, reason)];
  }

  /** ValidateDetailed: one issue for each unacceptable field, and none for a valid set. */
  method ValidateDetailed(p: Params) returns (issues: seq<Issue>)
    ensures Fields(issues) == Rejected(p) && issues == Report(p)
    ensures issues == [] <==> Valid(p)
  {
    issues := Add([], "arfcns", ArfcnsReason(p.arfcns));
    assert issues == Said("arfcns", ArfcnsReason(p.arfcns));
    issues := Add(issues, "c0", C0Reason(p.c0, p.band));
    issues := Add(issues, "band", BandReason(p.band));
    issues := Add(issues, "mcc", MccReason(p.mcc));
    issues := Add(issues, "mnc", MncReason(p.mnc));
    issues := Add(issues, "lac", LacReason(p.lac));
    issues := Add(issues, "ci", CiReason(p.ci));
    issues := Add(issues, "short_name", ShortNameReason(p.shortName));
    issues := Add(issues, "network", NetworkReason(p.network));
    ReportMeaning(p);
  }

  /** Validate: the first issue, if there is one. */
  method Validate(p: Params) returns (first: Option<Issue>)
    ensures first.None? <==> Valid(p)
    ensures first.Some? ==> Report(p) != [] && first.value == Report(p)[0]
  {
    var issues := ValidateDetailed(p);
    first := if |issues| > 0 then Some(issues[0]) else None;
  }
}
