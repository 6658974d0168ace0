/**
 * The text of a short message on its way from the air to the application:
 * UCS-2 octets are decoded to UTF-8 (patch 0006), printed in hexadecimal as a
 * keyed log record (patch 0003), and parsed back (internal/parser/sms.go).
 */
module SmsText {
  import opened Common
  import opened SmsRecord
  import opened Utf8

  // ---- UCS-2 user data (3GPP TS 23.040 section 9.2.3.24, TS 23.038 section 6.2.3) ---

  const MAX_USER_DATA: nat := 140

  /**
   * The text octets of a user-data field of `length` octets, with a header of
   * `raw[0] + 1` octets if `headed`; None is a read error.
   */
  function TextOctets(raw: seq<byte>, length: nat, headed: bool): Option<seq<byte>> {
    if length > MAX_USER_DATA || length > |raw| then None
    else if headed && (length == 0 || raw[0] as int + 1 > length) then None
    else
      var header := if headed then raw[0] as int + 1 else 0;
      if (length - header) % 2 != 0 then None else Some(raw[header..length])
  }

  function UnitAt(octets: seq<byte>, i: nat): nat
    requires 2 * i + 1 < |octets|
  {
    octets[2 * i] as int * 256 + octets[2 * i + 1] as int
  }

  /** Big-endian code units. */
  function Units(octets: seq<byte>): (us: seq<nat>)
    requires |octets| % 2 == 0
    ensures |us| == |octets| / 2
    ensures forall i :: 0 <= i < |us| ==> us[i] == UnitAt(octets, i) < 0x10000
  {
    seq<nat>(|octets| / 2, i requires 0 <= i < |octets| / 2 => UnitAt(octets, i))
  }

  ghost predicate SurrogateFree(us: seq<nat>) {
    forall i :: 0 <= i < |us| ==> Scalar(us[i])
  }

  /** The UCS-2 branch of TLUserData::decode; None is a read error. */
  method DecodeUcs2(raw: seq<byte>, length: nat, headed: bool) returns (r: Option<Text>)
    ensures r.Some? <==> TextOctets(raw, length, headed).Some?
                         && SurrogateFree(Units(TextOctets(raw, length, headed).value))
    ensures r.Some? ==> r.value == Encode(Units(TextOctets(raw, length, headed).value))
  {
    if length > 140 || length > |raw| { return None; }
    var crp := 0;
    var octets := length;
    if headed {
      if octets == 0 { return None; }
      var header := raw[0] as int + 1;
      if header > octets { return None; }
      crp := header;
      octets := octets - header;
    }
    if octets % 2 != 0 { return None; }
    r := DecodeUnits(raw, crp, octets);
  }

  lemma OneMoreUnit(us: seq<nat>, k: nat)
    requires k < |us| && SurrogateFree(us[..k]) && Scalar(us[k])
    ensures SurrogateFree(us[..k + 1]) && Encode(us[..k + 1]) == Encode(us[..k]) + EncodeScalar(us[k])
  {
    assert us[..k + 1][..k] == us[..k];
  }

  /** The loop: code units from octet `start` on. */
  method DecodeUnits(raw: seq<byte>, start: nat, octets: nat) returns (r: Option<Text>)
    requires start + octets <= |raw| && octets % 2 == 0
    ensures r.Some? <==> SurrogateFree(Units(raw[start..start + octets]))
    ensures r.Some? ==> r.value == Encode(Units(raw[start..start + octets]))
  {
    ghost var us := Units(raw[start..start + octets]);
    var crp := start;
    var text := [];
    ghost var k := 0;
    var i := 0;
    while i < octets
      invariant 0 <= k <= |us| && i == 2 * k && crp == start + i
      invariant SurrogateFree(us[..k]) && text == Encode(us[..k])
    {
      var code := raw[crp] as int * 256 + raw[crp + 1] as int;
      assert code == us[k];
      if 0xD800 <= code <= 0xDFFF {
        assert !Scalar(us[k]);
        return None;
      }
      OneMoreUnit(us, k);
      text := AppendUnit(text, code);
      crp := crp + 2;
      i := i + 2;
      k := k + 1;
    }
    assert us[..k] == us;
    r := Some(text);
  }

  /** The body of the loop: one code unit in UTF-8. */
  method AppendUnit(sofar: Text, code: nat) returns (text: Text)
    requires Scalar(code) && code < 0x10000
    ensures text == sofar + EncodeScalar(code)
  {
    text := sofar;
    if code < 0x80 {
      text := text + [code];
    } else if code < 0x800 {
      text := text + [0xC0 + code / 0x40];
      text := text + [0x80 + code % 0x40];
    } else {
      text := text + [0xE0 + code / 0x1000];
      text := text + [0x80 + code / 0x40 % 0x40];
      text := text + [0x80 + code % 0x40];
    }
  }

  // ---- The keyed log record -------------------------------------------------------------

  const TAG: string := "GSM_SMS_V1"
  const NAMES: seq<string> := ["qtag_hex", "from_hex", "to_hex", "text_hex"]
  const MAX_KEY: nat := 256
  const MAX_BODY: nat := 4096

  function HexDigit(n: nat): char
    requires n < 16
  {
    "0123456789abcdef"[n]
  }

  function Hex(t: Text): string {
    if t == [] then [] else Hex(t[..|t| - 1]) + [HexDigit(t[|t| - 1] / 16), HexDigit(t[|t| - 1] % 16)]
  }

  /** The printed fields, each behind a space and its name. */
  function PrintFields(fields: seq<Text>, names: seq<string>): string
    requires |fields| <= |names|
    decreases |fields|
  {
    if fields == [] then [] else Key(names[0]) + Hex(fields[0]) + PrintFields(fields[1..], names[1..])
  }

  function Key(name: string): string { " " + name + "=" }

  /** A whole record. */
  function Printed(fields: seq<Text>): string
    requires |fields| <= |NAMES|
  {
    TAG + PrintFields(fields, NAMES)
  }

  predicate WithinCaps(qtag: Text, party: Text, address: Text, body: Text) {
    |qtag| <= MAX_KEY && |party| <= MAX_KEY && |address| <= MAX_KEY && |body| <= MAX_BODY
  }

  /** The emitter; nothing is logged for an oversized field. */
  method EmitObservation(qtag: Text, party: Text, address: Text, body: Text) returns (r: Option<string>)
    ensures r.Some? <==> WithinCaps(qtag, party, address, body)
    ensures r.Some? ==> r.value == Printed([qtag, party, address, body])
  {
    var fields := [qtag, party, address, body];
    if !(|fields[0]| <= 256 && |fields[1]| <= 256 && |fields[2]| <= 256 && |body| <= 4096) { return None; }
    var observation := PrintRecord(fields);
    r := Some(observation);
  }

  /** The nested loops of the emitter. */
  method PrintRecord(fields: seq<Text>) returns (observation: string)
    requires |fields| == |NAMES|
    ensures observation == Printed(fields)
  {
    observation := TAG;
    var field := 0;
    while field < |fields|
      invariant 0 <= field <= |fields|
      invariant observation + PrintFields(fields[field..], NAMES[field..]) == Printed(fields)
    {
      ghost var before, rest := observation, PrintFields(fields[field + 1..], NAMES[field + 1..]);
      assert NAMES[field..][1..] == NAMES[field + 1..] && fields[field..][1..] == fields[field + 1..];
      observation := observation + Key(NAMES[field]);
      observation := AppendHex(observation, fields[field]);
      Regroup(before, Key(NAMES[field]), Hex(fields[field]), rest);
      field := field + 1;
    }
    assert PrintFields(fields[field..], NAMES[field..]) == [];
  }

  lemma Regroup(a: string, b: string, c: string, d: string)
    ensures a + (b + c + d) == a + b + c + d
  {
  }

  method AppendHex(sofar: string, t: Text) returns (observation: string)
    ensures observation == sofar + Hex(t)
  {
    var hexDigits := "0123456789abcdef";
    observation := sofar;
    var k := 0;
    while k < |t|
      invariant 0 <= k <= |t| && observation == sofar + Hex(t[..k])
    {
      assert t[..k + 1][..k] == t[..k];
      observation := observation + [hexDigits[t[k] / 16], hexDigits[t[k] % 16]];
      k := k + 1;
    }
    assert t[..k] == t;
  }

  // ---- Parsing the record ------------------------------------------------------------------

  predicate IsPatternSpace(c: char) { c == ' ' || c == '\t' || c == '\n' || c == '\U{000C}' || c == '\r' }

  /** The longest prefix without white space. */
  function Token(s: string): (t: string)
    ensures t <= s
    ensures |t| < |s| ==> IsPatternSpace(s[|t|])
    ensures forall i :: 0 <= i < |t| ==> !IsPatternSpace(t[i])
  {
    if s == [] || IsPatternSpace(s[0]) then [] else [s[0]] + Token(s[1..])
  }

  /** The tokens behind " name=" for each name in turn; only white space may follow. */
  function MatchFields(s: string, names: seq<string>): Option<seq<string>>
    decreases |names|
  {
    if names == [] then (if forall i :: 0 <= i < |s| ==> IsPatternSpace(s[i]) then Some([]) else None)
    else
      var key := Key(names[0]);
      if !(key <= s) then None
      else
        var token := Token(s[|key|..]);
        match MatchFields(s[|key| + |token|..], names[1..])
        case None => None
        case Some(rest) => Some([token] + rest)
  }

  /** The record's regular expression, anchored at both ends. */
  function MatchObservation(message: string): Option<seq<string>> {
    if TAG <= message then MatchFields(message[|TAG|..], NAMES) else None
  }

  function HexValue(c: char): (v: Option<nat>)
    ensures v.Some? ==> v.value < 16
  {
    if '0' <= c <= '9' then Some(c as int - '0' as int)
    else if 'a' <= c <= 'f' then Some(c as int - 'a' as int + 10)
    else if 'A' <= c <= 'F' then Some(c as int - 'A' as int + 10)
    else None
  }

  /** hex.DecodeString. */
  function Unhex(s: string): Option<Text>
    decreases |s|
  {
    if s == [] then Some([])
    else if |s| == 1 then None
    else
      var n := |s| - 2;
      var init, high, low := Unhex(s[..n]), HexValue(s[n]), HexValue(s[n + 1]);
      if init.Some? && high.Some? && low.Some? then Some(init.value + [high.value * 16 + low.value]) else None
  }

  /** Native byte caps, doubled for hexadecimal. */
  function Limit(field: nat): nat { if field < 3 then 512 else 8192 }

  datatype Structured = Structured(qtag: Text, sms: Sms)

  /** A field within its cap that is the hexadecimal form of valid UTF-8. */
  function FieldValue(encoded: string, limit: nat): Option<Text> {
    if |encoded| > limit then None
    else match Unhex(encoded)
      case Some(t) => if Valid(t) then Some(t) else None
      case None => None
  }

  function Build(values: seq<Text>, time: Text): Structured
    requires |values| == 4
  {
    var sms := NoticeParty(Sms(time, values[3], [], [], [], []), values[1], true);
    Structured(values[0], NoticeParty(sms, values[2], false))
  }

  /** The values of the first `n` fields, if all of them are acceptable. */
  function FieldValues(encoded: seq<string>, n: nat): (r: Option<seq<Text>>)
    requires n <= |encoded|
    ensures r.Some? ==> |r.value| == n
  {
    if n == 0 then Some([])
    else
      var init, last := FieldValues(encoded, n - 1), FieldValue(encoded[n - 1], Limit(n - 1));
      if init.Some? && last.Some? then Some(init.value + [last.value]) else None
  }

  lemma {:induction false} BadField(encoded: seq<string>, k: nat, n: nat)
    requires k <= n <= |encoded| && FieldValues(encoded, k).None?
    ensures FieldValues(encoded, n).None?
    decreases n
  {
    if k < n { BadField(encoded, k, n - 1); }
  }

  /** The structured record that a message holds, if it holds one. */
  function StructuredOf(message: string, time: Text): Option<Structured> {
    StructuredFrom(MatchObservation(message), time)
  }

  function StructuredFrom(found: Option<seq<string>>, time: Text): Option<Structured> {
    if found.None? then None
    else
      var values := FieldValues(found.value, |found.value|);
      if values.None? || |values.value| != 4 || values.value[0] == [] then None else Some(Build(values.value, time))
  }

  lemma {:induction false} MatchedLength(s: string, names: seq<string>)
    requires MatchFields(s, names).Some?
    ensures |MatchFields(s, names).value| == |names|
    decreases |names|
  {
    if names != [] {
      var key, rest := Key(names[0]), names[1..];
      var token := Token(s[|key|..]);
      var after := s[|key| + |token|..];
      MatchedLength(after, rest);
      assert MatchFields(s, names).value == [token] + MatchFields(after, rest).value;
    }
  }

  /** parseStructuredSMS. */
  method ParseStructuredSms(message: string, time: Text) returns (r: Option<Structured>)
    ensures r == StructuredOf(message, time)
  {
    var found := MatchObservation(message);
    if found.None? { return None; }
    MatchedLength(message[|TAG|..], NAMES);
    r := ParseFields(found.value, time);
  }

  /** The loop of parseStructuredSMS. */
  method ParseFields(encoded: seq<string>, time: Text) returns (r: Option<Structured>)
    requires |encoded| == 4
    ensures
      var values := FieldValues(encoded, 4);
      r == if values.None? || values.value[0] == [] then None else Some(Build(values.value, time))
  {
    var values: seq<Text> := [];
    var index := 0;
    while index < 4
      invariant 0 <= index <= 4 && FieldValues(encoded, index) == Some(values)
    {
      var value := encoded[index];
      var decoded := if |value| > Limit(index) then None else Unhex(value);
      if decoded.None? || !Valid(decoded.value) {
        BadField(encoded, index + 1, 4);
        return None;
      }
      values := values + [decoded.value];
      index := index + 1;
    }
    if values[0] == [] { return None; }
    r := Some(Build(values, time));
  }

  // ---- Round trips ------------------------------------------------------------------------

  lemma DigitValue(n: nat)
    requires n < 16
    ensures HexValue(HexDigit(n)) == Some(n) && !IsPatternSpace(HexDigit(n))
  {
  }

  predicate Solid(s: string) { forall i :: 0 <= i < |s| ==> !IsPatternSpace(s[i]) }

  lemma {:induction false} HexForm(t: Text)
    ensures |Hex(t)| == 2 * |t| && Unhex(Hex(t)) == Some(t) && Solid(Hex(t))
    decreases |t|
  {
    if t != [] {
      var init, last := t[..|t| - 1], t[|t| - 1];
      HexForm(init);
      HexDigits(Hex(init), init, last);
      SplitLast(t);
    }
  }

  lemma HexDigits(s: string, t: Text, b: byte)
    requires Unhex(s) == Some(t) && Solid(s)
    ensures var s' := s + [HexDigit(b / 16), HexDigit(b % 16)]; Unhex(s') == Some(t + [b]) && Solid(s')
  {
    DigitValue(b / 16);
    DigitValue(b % 16);
    HexStep(s, t, HexDigit(b / 16), HexDigit(b % 16));
  }

  lemma HexStep(s: string, t: Text, high: char, low: char)
    requires Unhex(s) == Some(t) && HexValue(high).Some? && HexValue(low).Some?
    ensures Unhex(s + [high, low]) == Some(t + [HexValue(high).value * 16 + HexValue(low).value])
  {
    assert (s + [high, low])[..|s|] == s;
  }

  lemma {:induction false} TokenOfPrefix(t: string, rest: string)
    requires Solid(t)
    requires rest == [] || IsPatternSpace(rest[0])
    ensures Token(t + rest) == t
  {
    if t == [] {
      assert t + rest == rest;
    } else {
      assert (t + rest)[1..] == t[1..] + rest;
      TokenOfPrefix(t[1..], rest);
    }
  }

  function HexAll(fields: seq<Text>): (r: seq<string>)
    ensures |r| == |fields| && forall i :: 0 <= i < |r| ==> r[i] == Hex(fields[i])
  {
    if fields == [] then [] else [Hex(fields[0])] + HexAll(fields[1..])
  }

  /** Matching undoes printing, for any list of names. */
  lemma {:induction false} MatchPrinted(fields: seq<Text>, names: seq<string>)
    requires |fields| == |names|
    ensures MatchFields(PrintFields(fields, names), names) == Some(HexAll(fields))
    decreases |fields|
  {
    if fields != [] {
      var rest := PrintFields(fields[1..], names[1..]);
      MatchPrinted(fields[1..], names[1..]);
      HexForm(fields[0]);
      TokenOfPrefix(Hex(fields[0]), rest);
      Taken(Key(names[0]), Hex(fields[0]), rest);
    }
  }

  lemma Taken(a: string, b: string, c: string)
    ensures a <= a + b + c && (a + b + c)[|a|..] == b + c && (a + b + c)[|a| + |b|..] == c
  {
  }

  lemma HexFieldValue(t: Text, limit: nat)
    requires Valid(t) && 2 * |t| <= limit
    ensures FieldValue(Hex(t), limit) == Some(t)
  {
    HexForm(t);
  }

  lemma OneMoreField(encoded: seq<string>, n: nat, init: seq<Text>, last: Text)
    requires 0 < n <= |encoded| && FieldValues(encoded, n - 1) == Some(init)
    requires FieldValue(encoded[n - 1], Limit(n - 1)) == Some(last)
    ensures FieldValues(encoded, n) == Some(init + [last])
  {
  }

  ghost predicate Readable(encoded: seq<string>, fields: seq<Text>) {
    |encoded| == |fields| && forall i :: 0 <= i < |fields| ==> FieldValue(encoded[i], Limit(i)) == Some(fields[i])
  }

  lemma {:induction false} ReadableValues(encoded: seq<string>, fields: seq<Text>, n: nat)
    requires n <= |fields| && Readable(encoded, fields)
    ensures FieldValues(encoded, n) == Some(fields[..n])
    decreases n
  {
    if n > 0 {
      ReadableValues(encoded, fields, n - 1);
      OneMoreField(encoded, n, fields[..n - 1], fields[n - 1]);
      assert fields[..n - 1] + [fields[n - 1]] == fields[..n];
    }
  }

  lemma ParsedValues(fields: seq<Text>)
    requires forall i :: 0 <= i < |fields| ==> Valid(fields[i]) && 2 * |fields[i]| <= Limit(i)
    ensures FieldValues(HexAll(fields), |fields|) == Some(fields)
  {
    var encoded := HexAll(fields);
    forall i | 0 <= i < |fields| ensures FieldValue(encoded[i], Limit(i)) == Some(fields[i]) {
      HexFieldValue(fields[i], Limit(i));
    }
    ReadableValues(encoded, fields, |fields|);
    assert fields[..|fields|] == fields;
  }

  /** Printing a keyed record and parsing it gives the same key, text and parties. */
  lemma ObservationRoundTrip(fields: seq<Text>, time: Text)
    requires |fields| == 4 && WithinCaps(fields[0], fields[1], fields[2], fields[3])
    requires fields[0] != [] && forall i :: 0 <= i < 4 ==> Valid(fields[i])
    ensures StructuredOf(Printed(fields), time) == Some(Build(fields, time))
    ensures Build(fields, time).qtag == fields[0] && Build(fields, time).sms.text == fields[3]
  {
    Matched(fields);
    BuiltFrom(fields, time);
  }

  lemma BuiltFrom(fields: seq<Text>, time: Text)
    requires |fields| == 4 && WithinCaps(fields[0], fields[1], fields[2], fields[3])
    requires fields[0] != [] && forall i :: 0 <= i < 4 ==> Valid(fields[i])
    ensures StructuredFrom(Some(HexAll(fields)), time) == Some(Build(fields, time))
    ensures Build(fields, time).qtag == fields[0] && Build(fields, time).sms.text == fields[3]
  {
    ParsedValues(fields);
    BuildKeeps(fields, time);
  }

  lemma BuildKeeps(values: seq<Text>, time: Text)
    requires |values| == 4
    ensures Build(values, time).qtag == values[0] && Build(values, time).sms.text == values[3]
  {
  }

  lemma Matched(fields: seq<Text>)
    requires |fields| == |NAMES|
    ensures MatchObservation(Printed(fields)) == Some(HexAll(fields))
  {
    Taken(TAG, [], PrintFields(fields, NAMES));
    assert TAG + [] == TAG;
    MatchPrinted(fields, NAMES);
  }

  /** A decoded short message has at most 210 bytes. */
  lemma {:induction false} EncodedSize(us: seq<nat>)
    requires SurrogateFree(us) && forall i :: 0 <= i < |us| ==> us[i] < 0x10000
    ensures |Encode(us)| <= 3 * |us|
    decreases |us|
  {
    if us != [] { EncodedSize(us[..|us| - 1]); }
  }

  /**
   * From the air to the application: whatever surrogate-free user data is
   * received, the text that is parsed back decodes to exactly its code units.
   */
  lemma EndToEnd(raw: seq<byte>, length: nat, headed: bool, fields: seq<Text>, time: Text)
    requires TextOctets(raw, length, headed).Some? && SurrogateFree(Units(TextOctets(raw, length, headed).value))
    requires |fields| == 4 && fields[3] == Encode(Units(TextOctets(raw, length, headed).value))
    requires fields[0] != [] && forall i :: 0 <= i < 3 ==> |fields[i]| <= MAX_KEY && Valid(fields[i])
    ensures WithinCaps(fields[0], fields[1], fields[2], fields[3])
    ensures
      var r := StructuredOf(Printed(fields), time);
      && r.Some? && r.value.qtag == fields[0]
      && Valid(r.value.sms.text)
      && Decode(r.value.sms.text) == Units(TextOctets(raw, length, headed).value)
  {
    var units := Units(TextOctets(raw, length, headed).value);
    EncodedSize(units);
    DecodeEncode(units);
    assert forall i :: 0 <= i < 4 ==> Valid(fields[i]);
    ObservationRoundTrip(fields, time);
  }
}
