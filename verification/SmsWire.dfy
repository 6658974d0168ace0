/**
 * What the decoder and the parser of short messages mean, in terms of what is
 * sent over the air and of the line that is written to the log.
 */
module SmsWire {
  import opened Common
  import opened SmsRecord
  import opened Utf8
  import opened SmsText

  // ---- What is sent over the air ----------------------------------------------------------

  /** The sender's side: each code unit as two octets, the high one first. */
  function Octets(us: seq<nat>): seq<byte>
    requires forall i :: 0 <= i < |us| ==> us[i] < 0x10000
  {
    if us == [] then [] else [us[0] / 256, us[0] % 256] + Octets(us[1..])
  }

  /** A user-data header with its length octet, or none. */
  function Header(headed: bool, h: seq<byte>): seq<byte>
    requires |h| < 256
  {
    if headed then [|h|] + h else []
  }

  lemma {:induction false} OctetsAt(us: seq<nat>, i: nat)
    requires (forall k :: 0 <= k < |us| ==> us[k] < 0x10000) && i < |us|
    ensures |Octets(us)| == 2 * |us|
    ensures Octets(us)[2 * i] == us[i] / 256 && Octets(us)[2 * i + 1] == us[i] % 256
  {
    if |us| > 1 { OctetsAt(us[1..], if i == 0 then 0 else i - 1); }
  }

  lemma UnitsOfOctets(us: seq<nat>)
    requires forall k :: 0 <= k < |us| ==> us[k] < 0x10000
    ensures |Octets(us)| == 2 * |us| && Units(Octets(us)) == us
  {
    forall i | 0 <= i < |us| ensures |Octets(us)| == 2 * |us| && UnitAt(Octets(us), i) == us[i] { OctetsAt(us, i); }
  }

  /** Whatever was sent, behind whatever header, its code units are found again, high octet first. */
  lemma SentUnits(headed: bool, h: seq<byte>, us: seq<nat>, rest: seq<byte>)
    requires |h| < 256 && forall k :: 0 <= k < |us| ==> us[k] < 0x10000
    requires |Header(headed, h) + Octets(us)| <= 140
    ensures
      var sent := Header(headed, h) + Octets(us);
      TextOctets(sent + rest, |sent|, headed) == Some(Octets(us)) && |Octets(us)| % 2 == 0 && Units(Octets(us)) == us
  {
    UnitsOfOctets(us);
    var front, octets := Header(headed, h), Octets(us);
    Middle(front, octets, rest);
    if headed { assert (front + octets + rest)[0] == front[0] == |h|; }
  }

  lemma Middle(a: seq<byte>, b: seq<byte>, c: seq<byte>)
    ensures (a + b + c)[|a|..|a + b|] == b
  {
  }

  lemma {:induction false} AllOctets(octets: seq<byte>) returns (us: seq<nat>)
    requires |octets| % 2 == 0
    ensures (forall k :: 0 <= k < |us| ==> us[k] < 0x10000) && Octets(us) == octets
    decreases |octets|
  {
    if octets == [] {
      us := [];
    } else {
      var more := AllOctets(octets[2..]);
      us := [octets[0] as int * 256 + octets[1] as int] + more;
      assert us[1..] == more;
      assert octets == [octets[0], octets[1]] + octets[2..];
    }
  }

  /** Nothing but a header of the announced length and whole code units is accepted. */
  lemma OnlySent(raw: seq<byte>, length: nat, headed: bool) returns (h: seq<byte>, us: seq<nat>)
    requires TextOctets(raw, length, headed).Some?
    ensures |h| < 256 && forall k :: 0 <= k < |us| ==> us[k] < 0x10000
    ensures length <= 140 && length <= |raw| && raw[..length] == Header(headed, h) + Octets(us)
  {
    var octets := TextOctets(raw, length, headed).value;
    us := AllOctets(octets);
    h := if headed then raw[1..raw[0] as int + 1] else [];
    assert raw[..length] == Header(headed, h) + octets;
  }

  /** The decoder on what was sent: the UTF-8 form of the code units, or an error if one is a surrogate. */
  method DecodeSent(headed: bool, h: seq<byte>, us: seq<nat>, rest: seq<byte>) returns (r: Option<Text>)
    requires |h| < 256 && forall k :: 0 <= k < |us| ==> us[k] < 0x10000
    requires |Header(headed, h) + Octets(us)| <= 140
    ensures r.Some? <==> forall i :: 0 <= i < |us| ==> !(0xD800 <= us[i] <= 0xDFFF)
    ensures r.Some? ==> SurrogateFree(us) && r.value == Encode(us)
  {
    SentUnits(headed, h, us, rest);
    var sent := Header(headed, h) + Octets(us);
    r := DecodeUcs2(sent + rest, |sent|, headed);
  }

  /** From the sender to the application: the code units that were sent are the ones that are read. */
  lemma SentIsRead(headed: bool, h: seq<byte>, us: seq<nat>, fields: seq<Text>, time: Text)
    requires |h| < 256 && (forall k :: 0 <= k < |us| ==> us[k] < 0x10000) && SurrogateFree(us)
    requires |Header(headed, h) + Octets(us)| <= 140
    requires |fields| == 4 && fields[3] == Encode(us)
    requires fields[0] != [] && forall i :: 0 <= i < 3 ==> |fields[i]| <= 256 && Valid(fields[i])
    ensures
      var r := StructuredOf(Printed(fields), time);
      && r.Some? && r.value.qtag == fields[0] && Valid(r.value.sms.text) && Decode(r.value.sms.text) == us
  {
    SentUnits(headed, h, us, []);
    var sent := Header(headed, h) + Octets(us);
    assert sent + [] == sent;
    EndToEnd(sent, |sent|, headed, fields, time);
  }

  // ---- The layout of the record --------------------------------------------------------------

  /** Two hexadecimal digits for each octet, the high one first, in lower case. */
  lemma {:induction false} HexAt(t: Text, i: nat)
    requires i < |t|
    ensures |Hex(t)| == 2 * |t| && DigitsAt(Hex(t), i, t[i])
    decreases |t|
  {
    var init, b := t[..|t| - 1], t[|t| - 1];
    HexForm(init);
    HexSnoc(init, b);
    SplitLast(t);
    if i < |init| {
      HexAt(init, i);
      OldDigits(Hex(init), [HexDigit(b / 16), HexDigit(b % 16)], i, init[i]);
    } else {
      NewDigits(Hex(init), i, b);
    }
  }

  lemma HexSnoc(init: Text, b: byte)
    ensures Hex(init + [b]) == Hex(init) + [HexDigit(b / 16), HexDigit(b % 16)]
  {
    assert (init + [b])[..|init|] == init;
  }

  predicate DigitsAt(h: string, i: nat, b: byte) {
    2 * i + 1 < |h| && IsHexDigit(h[2 * i], b / 16) && IsHexDigit(h[2 * i + 1], b % 16)
  }

  lemma OldDigits(h: string, more: string, i: nat, b: byte)
    requires DigitsAt(h, i, b)
    ensures DigitsAt(h + more, i, b)
  {
  }

  lemma NewDigits(h: string, n: nat, b: byte)
    requires |h| == 2 * n
    ensures DigitsAt(h + [HexDigit(b / 16), HexDigit(b % 16)], n, b)
  {
    IsDigit(b / 16);
    IsDigit(b % 16);
  }

  lemma IsDigit(n: nat)
    requires n < 16
    ensures IsHexDigit(HexDigit(n), n)
  {
  }

  predicate IsHexDigit(c: char, n: int) {
    0 <= n < 16 && c as int == (if n < 10 then '0' as int + n else 'a' as int + n - 10)
  }

  /** The record with these four tokens, spelled out. */
  function Line(qtag: string, party: string, address: string, body: string): string {
    "GSM_SMS_V1 qtag_hex=" + qtag + " from_hex=" + party + " to_hex=" + address + " text_hex=" + body
  }

  function Layout(tokens: seq<string>, names: seq<string>): string
    requires |tokens| == |names|
  {
    if tokens == [] then [] else Key(names[0]) + tokens[0] + Layout(tokens[1..], names[1..])
  }

  lemma {:induction false} PrintIsLayout(fields: seq<Text>, names: seq<string>)
    requires |fields| == |names|
    ensures PrintFields(fields, names) == Layout(HexAll(fields), names)
    decreases |fields|
  {
    if fields != [] { PrintIsLayout(fields[1..], names[1..]); }
  }

  predicate Blank(s: string) { forall i :: 0 <= i < |s| ==> IsPatternSpace(s[i]) }

  predicate AllSolid(tokens: seq<string>) { forall i :: 0 <= i < |tokens| ==> Solid(tokens[i]) }

  /** Matching accepts exactly the laid-out tokens, with nothing but white space behind them. */
  lemma {:induction false} MatchLayout(tokens: seq<string>, names: seq<string>, trail: string)
    requires |tokens| == |names| && AllSolid(tokens) && Blank(trail)
    ensures MatchFields(Layout(tokens, names) + trail, names) == Some(tokens)
    decreases |names|
  {
    if names == [] {
      assert Layout(tokens, names) + trail == trail;
    } else {
      var more, others := tokens[1..], names[1..];
      var rest := Layout(more, others) + trail;
      MatchLayout(more, others, trail);
      SpaceInFront(more, others, trail);
      MatchOne(tokens[0], rest, names, more);
      assert [tokens[0]] + more == tokens;
      LayoutHead(tokens, names, trail, rest);
    }
  }

  lemma SpaceInFront(tokens: seq<string>, names: seq<string>, trail: string)
    requires |tokens| == |names| && Blank(trail)
    ensures var s := Layout(tokens, names) + trail; s == [] || IsPatternSpace(s[0])
  {
    if names != [] {
      LayoutHead(tokens, names, trail, Layout(tokens[1..], names[1..]) + trail);
      assert Key(names[0])[0] == ' ';
    }
  }

  lemma LayoutHead(tokens: seq<string>, names: seq<string>, trail: string, rest: string)
    requires |tokens| == |names| > 0 && rest == Layout(tokens[1..], names[1..]) + trail
    ensures Layout(tokens, names) + trail == Key(names[0]) + tokens[0] + rest
  {
    var key, more := Key(names[0]), Layout(tokens[1..], names[1..]);
    assert Layout(tokens, names) == key + tokens[0] + more;
    Assoc(key + tokens[0], more, trail);
  }

  lemma MatchOne(token: string, rest: string, names: seq<string>, found: seq<string>)
    requires names != [] && Solid(token) && (rest == [] || IsPatternSpace(rest[0]))
    requires MatchFields(rest, names[1..]) == Some(found)
    ensures MatchFields(Key(names[0]) + token + rest, names) == Some([token] + found)
  {
    TokenOfPrefix(token, rest);
    Taken(Key(names[0]), token, rest);
  }

  lemma {:induction false} MatchedIsLayout(s: string, names: seq<string>) returns (trail: string)
    requires MatchFields(s, names).Some?
    ensures Blank(trail)
    ensures
      var tokens := MatchFields(s, names).value;
      |tokens| == |names| && AllSolid(tokens) && s == Layout(tokens, names) + trail
    decreases |names|
  {
    if names == [] {
      trail := s;
    } else {
      var token, after := MatchStep(s, names);
      var rest := names[1..];
      trail := MatchedIsLayout(after, rest);
      var tokens := MatchFields(after, rest).value;
      ConsTail(token, tokens);
      LayoutHead([token] + tokens, names, trail, after);
      assert AllSolid([token] + tokens);
    }
  }

  lemma MatchStep(s: string, names: seq<string>) returns (token: string, after: string)
    requires names != [] && MatchFields(s, names).Some?
    ensures s == Key(names[0]) + token + after && Solid(token)
    ensures MatchFields(after, names[1..]).Some?
    ensures MatchFields(s, names).value == [token] + MatchFields(after, names[1..]).value
  {
    var key := Key(names[0]);
    token := Token(s[|key|..]);
    after := s[|key| + |token|..];
    CutTwice(s, key, token);
  }

  lemma CutTwice(s: string, key: string, token: string)
    requires key <= s && token <= s[|key|..]
    ensures s == key + token + s[|key| + |token|..]
  {
    assert s == key + s[|key|..];
    assert s[|key|..] == token + s[|key|..][|token|..];
    assert s[|key|..][|token|..] == s[|key| + |token|..];
  }

  lemma LayoutIsLine(tokens: seq<string>)
    requires |tokens| == 4
    ensures |NAMES| == 4 && TAG + Layout(tokens, NAMES) == Line(tokens[0], tokens[1], tokens[2], tokens[3])
  {
    LayoutOfFour(tokens, NAMES);
    LineParts(TAG, Key(NAMES[0]), Key(NAMES[1]), Key(NAMES[2]), Key(NAMES[3]), tokens);
    Names();
  }

  lemma Names()
    ensures |NAMES| == 4 && TAG + Key(NAMES[0]) == "GSM_SMS_V1 qtag_hex="
    ensures Key(NAMES[1]) == " from_hex=" && Key(NAMES[2]) == " to_hex=" && Key(NAMES[3]) == " text_hex="
  {
  }

  lemma LayoutOfFour(t: seq<string>, names: seq<string>)
    requires |t| == |names| == 4
    ensures Layout(t, names) == Key(names[0]) + t[0] + (Key(names[1]) + t[1]
              + (Key(names[2]) + t[2] + (Key(names[3]) + t[3])))
  {
    assert t[0..] == t && names[0..] == names;
    LayoutTail(t, names, 0);
    LayoutTail(t, names, 1);
    LayoutTail(t, names, 2);
    LayoutTail(t, names, 3);
    assert Layout(t[4..], names[4..]) == [];
    assert Key(names[3]) + t[3] + [] == Key(names[3]) + t[3];
  }

  lemma LayoutTail(t: seq<string>, names: seq<string>, k: nat)
    requires |t| == |names| && k < |t|
    ensures Layout(t[k..], names[k..]) == Key(names[k]) + t[k] + Layout(t[k + 1..], names[k + 1..])
  {
    assert t[k..][1..] == t[k + 1..] && names[k..][1..] == names[k + 1..];
  }

  lemma LineParts(tag: string, a: string, b: string, c: string, d: string, t: seq<string>)
    requires |t| == 4
    ensures tag + (a + t[0] + (b + t[1] + (c + t[2] + (d + t[3])))) == tag + a + t[0] + b + t[1] + c + t[2] + d + t[3]
  {
  }

  /** The emitter prints exactly this line. */
  lemma PrintedIsLine(fields: seq<Text>)
    requires |fields| == 4
    ensures |NAMES| == 4 && Printed(fields) == Line(Hex(fields[0]), Hex(fields[1]), Hex(fields[2]), Hex(fields[3]))
  {
    PrintIsLayout(fields, NAMES);
    LayoutIsLine(HexAll(fields));
  }

  ghost predicate IsLine(message: string, tokens: seq<string>, trail: string)
    requires |tokens| == 4
  {
    && (forall i, k :: 0 <= i < 4 && 0 <= k < |tokens[i]| ==> !(tokens[i][k] in " \t\n\U{000C}\r"))
    && (forall k :: 0 <= k < |trail| ==> trail[k] in " \t\n\U{000C}\r")
    && message == Line(tokens[0], tokens[1], tokens[2], tokens[3]) + trail
  }

  /** The parser's pattern accepts exactly such a line, white space behind it apart. */
  lemma MatchMeans(message: string, tokens: seq<string>)
    requires |tokens| == 4
    ensures MatchObservation(message) == Some(tokens) <==> exists trail :: IsLine(message, tokens, trail)
  {
    if MatchObservation(message) == Some(tokens) {
      var trail := MatchedLine(message, tokens);
      assert IsLine(message, tokens, trail);
    }
    if trail :| IsLine(message, tokens, trail) { LineMatched(message, tokens, trail); }
  }

  lemma MatchedLine(message: string, tokens: seq<string>) returns (trail: string)
    requires |tokens| == 4 && MatchObservation(message) == Some(tokens)
    ensures IsLine(message, tokens, trail)
  {
    LayoutIsLine(tokens);
    trail := LaidOut(message, TAG, NAMES, tokens);
    Spaces(tokens, trail);
  }

  lemma Spaces(tokens: seq<string>, trail: string)
    requires |tokens| == 4
    ensures AllSolid(tokens) <==> forall i, k :: 0 <= i < 4 && 0 <= k < |tokens[i]| ==> !(tokens[i][k] in " \t\n\U{000C}\r")
    ensures Blank(trail) <==> forall k :: 0 <= k < |trail| ==> trail[k] in " \t\n\U{000C}\r"
  {
    assert forall c :: IsPatternSpace(c) <==> c in " \t\n\U{000C}\r";
  }

  lemma LaidOut(message: string, tag: string, names: seq<string>, tokens: seq<string>) returns (trail: string)
    requires tag <= message && MatchFields(message[|tag|..], names) == Some(tokens)
    ensures |tokens| == |names| && AllSolid(tokens) && Blank(trail) && message == tag + Layout(tokens, names) + trail
  {
    trail := MatchedIsLayout(message[|tag|..], names);
    Assoc(tag, Layout(tokens, names), trail);
    SplitAt(message, |tag|);
  }

  lemma LineMatched(message: string, tokens: seq<string>, trail: string)
    requires |tokens| == 4 && IsLine(message, tokens, trail)
    ensures MatchObservation(message) == Some(tokens)
  {
    LayoutIsLine(tokens);
    Spaces(tokens, trail);
    MatchLaidOut(message, TAG, NAMES, tokens, trail);
  }

  lemma MatchLaidOut(message: string, tag: string, names: seq<string>, tokens: seq<string>, trail: string)
    requires |tokens| == |names| && AllSolid(tokens) && Blank(trail) && message == tag + Layout(tokens, names) + trail
    ensures tag <= message && MatchFields(message[|tag|..], names) == Some(tokens)
  {
    var body := Layout(tokens, names) + trail;
    Assoc(tag, Layout(tokens, names), trail);
    assert message == tag + body && message[|tag|..] == body;
    MatchLayout(tokens, names, trail);
  }

  /** A hexadecimal digit, of either case, and its value. */
  ghost predicate IsDigitOf(c: char, n: int) {
    0 <= n < 16 && (c == "0123456789abcdef"[n] || c == "0123456789ABCDEF"[n])
  }

  ghost predicate IsHexChar(c: char) { exists n :: IsDigitOf(c, n) }

  lemma DigitMeans(c: char, n: nat)
    ensures HexValue(c) == Some(n) <==> IsDigitOf(c, n)
  {
  }

  /** hex.DecodeString: pairs of digits of either case, the high one first, and nothing else. */
  lemma {:induction false} UnhexMeans(s: string)
    ensures Unhex(s).Some? <==> |s| % 2 == 0 && forall i :: 0 <= i < |s| ==> IsHexChar(s[i])
    ensures Unhex(s).Some? ==> |Unhex(s).value| == |s| / 2
    ensures Unhex(s).Some? ==> forall i :: 0 <= i < |s| / 2 ==> PairAt(s, Unhex(s).value, i)
  {
    UnhexValues(s);
    forall i | 0 <= i < |s| ensures HexValue(s[i]).Some? <==> IsHexChar(s[i]) { IsSomeDigit(s[i]); }
  }

  lemma IsSomeDigit(c: char)
    ensures HexValue(c).Some? <==> IsHexChar(c)
  {
    if HexValue(c).Some? { DigitMeans(c, HexValue(c).value); }
    if IsHexChar(c) {
      var n :| IsDigitOf(c, n);
      DigitMeans(c, n);
    }
  }

  lemma {:induction false} UnhexValues(s: string)
    ensures Unhex(s).Some? <==> |s| % 2 == 0 && forall i :: 0 <= i < |s| ==> HexValue(s[i]).Some?
    ensures Unhex(s).Some? ==> |Unhex(s).value| == |s| / 2
    ensures Unhex(s).Some? ==> forall i :: 0 <= i < |s| / 2 ==> PairAt(s, Unhex(s).value, i)
    decreases |s|
  {
    if |s| >= 2 {
      var n := |s| - 2;
      UnhexValues(s[..n]);
      assert forall i :: 0 <= i < n ==> s[..n][i] == s[i];
      if Unhex(s).Some? {
        forall i | 0 <= i < |s| / 2 ensures PairAt(s, Unhex(s).value, i) {
          if i < n / 2 { EarlierPair(s, i); } else { LastPair(s); }
        }
      }
    }
  }

  lemma EarlierPair(s: string, i: nat)
    requires |s| >= 2 && Unhex(s).Some? && PairAt(s[..|s| - 2], Unhex(s[..|s| - 2]).value, i)
    ensures PairAt(s, Unhex(s).value, i)
  {
  }

  lemma LastPair(s: string)
    requires |s| >= 2 && |s| % 2 == 0 && Unhex(s).Some? && |Unhex(s[..|s| - 2]).value| == |s| / 2 - 1
    ensures PairAt(s, Unhex(s).value, |s| / 2 - 1)
  {
    DigitMeans(s[|s| - 2], HexValue(s[|s| - 2]).value);
    DigitMeans(s[|s| - 1], HexValue(s[|s| - 1]).value);
  }

  /** The octet is the value of its two digits. */
  ghost predicate PairAt(s: string, t: Text, i: nat) {
    && 2 * i + 1 < |s| && i < |t|
    && IsDigitOf(s[2 * i], t[i] / 16) && IsDigitOf(s[2 * i + 1], t[i] % 16)
  }

  /** A record is accepted exactly with four fields of valid text within the caps and a key. */
  lemma StructuredMeans(message: string, time: Text)
    ensures StructuredOf(message, time).Some? <==> exists values: seq<Text> :: Carries(message, values)
    ensures forall values: seq<Text> :: Carries(message, values) ==> StructuredOf(message, time) == Some(Build(values, time))
  {
    if StructuredOf(message, time).Some? {
      var tokens := MatchObservation(message).value;
      MatchedLength(message[|TAG|..], NAMES);
      MatchMeans(message, tokens);
      CarriedBy(tokens, FieldValues(tokens, 4).value);
      assert Carries(message, FieldValues(tokens, 4).value);
    }
    forall values: seq<Text> | Carries(message, values)
      ensures StructuredOf(message, time) == Some(Build(values, time))
    {
      var tokens: seq<string> :| IsCarried(tokens, values) && MatchObservation(message) == Some(tokens);
      CarriedBy(tokens, values);
    }
  }

  /** A hexadecimal form, within its cap, of valid text. */
  ghost predicate IsField(token: string, limit: nat, value: Text) {
    |token| <= limit && Unhex(token) == Some(value) && Valid(value)
  }

  ghost predicate IsCarried(tokens: seq<string>, values: seq<Text>) {
    && |tokens| == |values| == 4
    && IsField(tokens[0], 512, values[0]) && IsField(tokens[1], 512, values[1])
    && IsField(tokens[2], 512, values[2]) && IsField(tokens[3], 8192, values[3])
  }

  ghost predicate Carries(message: string, values: seq<Text>) {
    |values| == 4 && values[0] != [] && exists tokens: seq<string> :: IsCarried(tokens, values) && MatchObservation(message) == Some(tokens)
  }

  lemma CarriedBy(tokens: seq<string>, values: seq<Text>)
    requires |tokens| == 4
    ensures FieldValues(tokens, 4) == Some(values) <==> IsCarried(tokens, values)
  {
    FourValues(tokens);
    AppendFour(FieldValue(tokens[0], 512), FieldValue(tokens[1], 512), FieldValue(tokens[2], 512), FieldValue(tokens[3], 8192), values);
    if |values| == 4 {
      FieldMeans(tokens[0], 512, values[0]);
      FieldMeans(tokens[1], 512, values[1]);
      FieldMeans(tokens[2], 512, values[2]);
      FieldMeans(tokens[3], 8192, values[3]);
    }
  }

  lemma FieldMeans(token: string, limit: nat, value: Text)
    ensures FieldValue(token, limit) == Some(value) <==> IsField(token, limit, value)
  {
  }

  lemma AppendFour(a: Option<Text>, b: Option<Text>, c: Option<Text>, d: Option<Text>, values: seq<Text>)
    ensures Append(Append(Append(Append(Some([]), a), b), c), d) == Some(values) <==>
              |values| == 4 && a == Some(values[0]) && b == Some(values[1]) && c == Some(values[2]) && d == Some(values[3])
  {
    if a.Some? && b.Some? && c.Some? && d.Some? {
      assert [] + [a.value] + [b.value] + [c.value] + [d.value] == [a.value, b.value, c.value, d.value];
      if |values| == 4 { assert values == [values[0], values[1], values[2], values[3]]; }
    }
  }

  lemma FourValues(t: seq<string>)
    requires |t| == 4
    ensures FieldValues(t, 4) ==
            Append(Append(Append(Append(Some([]), FieldValue(t[0], 512)), FieldValue(t[1], 512)), FieldValue(t[2], 512)), FieldValue(t[3], 8192))
  {
    assert FieldValues(t, 0) == Some([]);
    NextValue(t, 1);
    NextValue(t, 2);
    NextValue(t, 3);
    NextValue(t, 4);
  }

  function Append(init: Option<seq<Text>>, last: Option<Text>): Option<seq<Text>> {
    if init.Some? && last.Some? then Some(init.value + [last.value]) else None
  }

  lemma NextValue(t: seq<string>, n: nat)
    requires 0 < n <= |t|
    ensures FieldValues(t, n) == Append(FieldValues(t, n - 1), FieldValue(t[n - 1], if n < 4 then 512 else 8192))
  {
  }

  /** Who sent and who receives what a record says: the first party is the sender, the second one the receiver. */
  lemma BuildMeans(values: seq<Text>, time: Text)
    requires |values| == 4
    ensures
      var r := Build(values, time);
      && r.qtag == values[0] && r.sms.time == time && r.sms.text == values[3]
      && r.sms.senderImsi == ImsiDigits(values[1]) && r.sms.senderNumber == NumberText(values[1])
      && r.sms.receiverImsi == ImsiDigits(values[2]) && r.sms.receiverNumber == NumberText(values[2])
  {
    PartyMeans(values[1]);
    PartyMeans(values[2]);
  }
}
