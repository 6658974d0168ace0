/** The parts of Go's strings library that the registry and the radio parameters rely on. */
module Strings {
  import opened Common
  import Utf8

  /** unicode.IsSpace. */
  predicate IsSpace(c: char) {
    || '\t' <= c <= '\r' || c == ' ' || c == '\U{0085}' || c == '\U{00A0}' || c == '\U{1680}'
    || '\U{2000}' <= c <= '\U{200A}' || c == '\U{2028}' || c == '\U{2029}' || c == '\U{202F}'
    || c == '\U{205F}' || c == '\U{3000}'
  }

  function TrimLeft(s: string): string {
    if s != [] && IsSpace(s[0]) then TrimLeft(s[1..]) else s
  }

  function TrimRight(s: string): string {
    if s != [] && IsSpace(s[|s| - 1]) then TrimRight(s[..|s| - 1]) else s
  }

  function TrimSpace(s: string): string { TrimRight(TrimLeft(s)) }

  lemma TrimSolid(s: string)
    requires forall i :: 0 <= i < |s| ==> !IsSpace(s[i])
    ensures TrimSpace(s) == s
  {
  }

  /** The code points with the White_Space property. */
  lemma SpaceTable(c: char)
    ensures IsSpace(c) <==> c as int in {
              0x09, 0x0A, 0x0B, 0x0C, 0x0D, 0x20, 0x85, 0xA0, 0x1680,
              0x2000, 0x2001, 0x2002, 0x2003, 0x2004, 0x2005, 0x2006, 0x2007, 0x2008, 0x2009, 0x200A,
              0x2028, 0x2029, 0x202F, 0x205F, 0x3000}
  {
  }

  predicate AllSpace(s: string) { forall i :: 0 <= i < |s| ==> IsSpace(s[i]) }

  /** White space at both ends taken off, and nothing else. */
  ghost predicate Stripped(s: string, r: string) {
    && (exists a, b :: AllSpace(a) && AllSpace(b) && s == a + r + b)
    && (r != "" ==> !IsSpace(r[0]) && !IsSpace(r[|r| - 1]))
  }

  lemma {:induction false} TrimLeftMeans(s: string) returns (a: string)
    ensures AllSpace(a) && s == a + TrimLeft(s)
    ensures TrimLeft(s) != "" ==> !IsSpace(TrimLeft(s)[0])
  {
    a := "";
    if s != "" && IsSpace(s[0]) {
      var more := TrimLeftMeans(s[1..]);
      a := [s[0]] + more;
    }
  }

  lemma {:induction false} TrimRightMeans(s: string) returns (b: string)
    ensures AllSpace(b) && s == TrimRight(s) + b
    ensures var r := TrimRight(s); r != "" ==> !IsSpace(r[|r| - 1])
    decreases |s|
  {
    b := "";
    if s != "" && IsSpace(s[|s| - 1]) {
      var more := TrimRightMeans(s[..|s| - 1]);
      b := more + [s[|s| - 1]];
      SpaceBefore(more, s[|s| - 1]);
    }
  }

  lemma SpaceBefore(s: string, c: char)
    requires AllSpace(s) && IsSpace(c)
    ensures AllSpace(s + [c])
  {
  }

  /** Trimming strips exactly the white space at both ends. */
  lemma TrimMeans(s: string, r: string)
    ensures TrimSpace(s) == r <==> Stripped(s, r)
  {
    var a := TrimLeftMeans(s);
    var b := TrimRightMeans(TrimLeft(s));
    var t := TrimSpace(s);
    assert s == a + t + b;
    assert t != "" ==> t[0] == TrimLeft(s)[0];
    assert Stripped(s, t);
    if Stripped(s, r) { StrippedUnique(s, t, r); }
  }

  lemma BlankIsStripped(s: string)
    ensures Stripped(s, "") <==> AllSpace(s)
  {
    if AllSpace(s) {
      assert s == s + "" + "";
      assert AllSpace("");
    }
  }

  lemma StrippedUnique(s: string, r: string, t: string)
    requires Stripped(s, r) && Stripped(s, t)
    ensures r == t
  {
    var a, b :| AllSpace(a) && AllSpace(b) && s == a + r + b;
    var c, d :| AllSpace(c) && AllSpace(d) && s == c + t + d;
    if r == "" || t == "" {
      BlankCore(s, a, r, b);
      BlankCore(s, c, t, d);
    } else {
      Edges(s, a, r, b, c, t, d);
      Edges(s, c, t, d, a, r, b);
      assert |a| == |c| && |b| == |d|;
      Core(a, r, b);
      Core(c, t, d);
    }
  }

  lemma Core(a: string, r: string, b: string)
    ensures var s := a + r + b; s[|a|..|s| - |b|] == r
  {
  }

  lemma BlankCore(s: string, a: string, r: string, b: string)
    requires AllSpace(a) && AllSpace(b) && s == a + r + b && (r != "" ==> !IsSpace(r[0]))
    ensures r == "" <==> AllSpace(s)
  {
    if r != "" { assert s[|a|] == r[0]; }
  }

  lemma Edges(s: string, a: string, r: string, b: string, c: string, t: string, d: string)
    requires s == a + r + b == c + t + d && r != "" && t != ""
    requires AllSpace(a) && AllSpace(b) && !IsSpace(t[0]) && !IsSpace(t[|t| - 1])
    ensures |a| <= |c| && |b| <= |d|
  {
    var first, last := |c|, |s| - |d| - 1;
    assert s[first] == t[0] && s[last] == t[|t| - 1];
    assert forall i :: 0 <= i < |a| ==> s[i] == a[i];
    assert forall i :: 0 <= i < |b| ==> s[|a| + |r| + i] == b[i];
    forall k | |a| + |r| <= k < |s| ensures IsSpace(s[k]) { SpaceBehind(s, |a| + |r|, b, k); }
  }

  lemma SpaceBehind(s: string, n: nat, b: string, k: nat)
    requires |s| == n + |b| && n <= k < |s| && AllSpace(b) && forall i :: 0 <= i < |b| ==> s[n + i] == b[i]
    ensures IsSpace(s[k])
  {
    assert s[n + (k - n)] == b[k - n];
  }

  const LOWER: string := "abcdefghijklmnopqrstuvwxyz"
  const UPPER: string := "ABCDEFGHIJKLMNOPQRSTUVWXYZ"
  const DIGITS: string := "0123456789"

  lemma Alphabets(c: char)
    ensures 'a' <= c <= 'z' <==> c in LOWER
    ensures 'A' <= c <= 'Z' <==> c in UPPER
    ensures '0' <= c <= '9' <==> c in DIGITS
  {
    assert forall i :: 0 <= i < 26 ==> LOWER[i] as int == 'a' as int + i;
    assert forall i :: 0 <= i < 26 ==> UPPER[i] as int == 'A' as int + i;
    assert forall i :: 0 <= i < 10 ==> DIGITS[i] as int == '0' as int + i;
    if 'a' <= c <= 'z' { assert LOWER[c as int - 'a' as int] == c; }
    if 'A' <= c <= 'Z' { assert UPPER[c as int - 'A' as int] == c; }
    if '0' <= c <= '9' { assert DIGITS[c as int - '0' as int] == c; }
  }

  // ---- Bytes and digits ---------------------------------------------------------------

  /** The number of bytes of the UTF-8 form, which is what len counts. */
  function ByteLength(s: string): nat {
    if s == [] then 0 else CharLength(s[0]) + ByteLength(s[1..])
  }

  function CharLength(c: char): nat {
    if c < '\U{0080}' then 1 else if c < '\U{0800}' then 2 else if c < '\U{10000}' then 3 else 4
  }

  /** The code points of a string. */
  function Scalars(s: string): (us: seq<nat>)
    ensures |us| == |s| && forall i :: 0 <= i < |us| ==> us[i] == s[i] as int && Utf8.Scalar(us[i])
  {
    if s == [] then [] else [s[0] as int] + Scalars(s[1..])
  }

  /** The length is the one of the UTF-8 form. */
  lemma {:induction false} ByteLengthMeans(s: string)
    ensures ByteLength(s) == |Utf8.Encode(Scalars(s))|
  {
    if s != [] {
      ByteLengthMeans(s[1..]);
      Utf8.EncodeHead(Scalars(s));
    }
  }

  lemma {:induction false} AsciiLength(s: string)
    requires forall i :: 0 <= i < |s| ==> s[i] < '\U{0080}'
    ensures ByteLength(s) == |s|
  {
    if s != [] { AsciiLength(s[1..]); }
  }

  /** isDigits. */
  predicate IsDigits(s: string) {
    s != "" && forall i :: 0 <= i < |s| ==> '0' <= s[i] <= '9'
  }

  lemma NumeralMeans(s: string)
    ensures IsDigits(s) <==> s != "" && forall i :: 0 <= i < |s| ==> s[i] in DIGITS
  {
    forall c: char ensures '0' <= c <= '9' <==> c in DIGITS { Alphabets(c); }
  }

  lemma DigitsSolid(s: string)
    requires IsDigits(s)
    ensures TrimSpace(s) != "" && ByteLength(s) == |s|
  {
    TrimSolid(s);
    AsciiLength(s);
  }

  function Value(s: string): (n: int)
    requires forall i :: 0 <= i < |s| ==> '0' <= s[i] <= '9'
    ensures n >= 0
  {
    if s == [] then 0 else 10 * Value(s[..|s| - 1]) + (s[|s| - 1] as int - '0' as int)
  }

  /** The shortest decimal form of a number. */
  function Decimal(n: nat): string {
    (if n < 10 then [] else Decimal(n / 10)) + [('0' as int + n % 10) as char]
  }

  /** Decimal digits have the value they denote, the most significant one first. */
  lemma {:induction false} ValueMeans(n: nat)
    ensures IsDigits(Decimal(n)) && Value(Decimal(n)) == n
  {
    if n >= 10 { ValueMeans(n / 10); }
    ValueMore(if n < 10 then [] else Decimal(n / 10), ('0' as int + n % 10) as char);
  }

  lemma ValueMore(s: string, c: char)
    requires (s == [] || IsDigits(s)) && '0' <= c <= '9'
    ensures IsDigits(s + [c]) && Value(s + [c]) == 10 * Value(s) + (c as int - '0' as int)
  {
    assert (s + [c])[..|s|] == s;
  }

  /** Leading zeros do not matter. */
  lemma {:induction false} LeadingZero(s: string)
    requires IsDigits(s)
    ensures IsDigits("0" + s) && Value("0" + s) == Value(s)
    decreases |s|
  {
    var front, c := s[..|s| - 1], s[|s| - 1];
    assert "0" + s == "0" + front + [c];
    if front == "" {
      assert "0" + front == "0";
      assert Value("0") == 10 * Value("0"[..0]) + 0;
      assert Value(front) == 0;
    } else {
      LeadingZero(front);
    }
    ValueMore("0" + front, c);
  }

  // ---- Lexicographic order ----------------------------------------------------------

  predicate Less(a: string, b: string) {
    if b == [] then false
    else if a == [] then true
    else if a[0] != b[0] then a[0] < b[0]
    else Less(a[1..], b[1..])
  }

  /** Go compares strings by their bytes, which is the same order. */
  lemma {:induction false} LessIsByteOrder(a: string, b: string)
    ensures Less(a, b) <==> Utf8.BytesLess(Utf8.Encode(Scalars(a)), Utf8.Encode(Scalars(b)))
    decreases |a|
  {
    if a != [] && b != [] {
      var x, y := Utf8.Encode(Scalars(a[1..])), Utf8.Encode(Scalars(b[1..]));
      EncodedHead(a);
      EncodedHead(b);
      LessIsByteOrder(a[1..], b[1..]);
      HeadsDecide(a[0], b[0], x, y);
    } else if b != [] {
      EncodedHead(b);
    }
  }

  lemma EncodedHead(s: string)
    requires s != []
    ensures Utf8.Encode(Scalars(s)) == Utf8.EncodeScalar(s[0] as int) + Utf8.Encode(Scalars(s[1..]))
  {
    Utf8.EncodeHead(Scalars(s));
  }

  lemma HeadsDecide(c: char, d: char, x: seq<byte>, y: seq<byte>)
    ensures Utf8.Scalar(c as int) && Utf8.Scalar(d as int)
    ensures
      var a, b := Utf8.EncodeScalar(c as int) + x, Utf8.EncodeScalar(d as int) + y;
      Utf8.BytesLess(a, b) <==> if c == d then Utf8.BytesLess(x, y) else c < d
  {
    var front, other := Utf8.EncodeScalar(c as int), Utf8.EncodeScalar(d as int);
    if c == d {
      Utf8.CommonFront(front, x, y);
    } else if c < d {
      var k := Utf8.ScalarOrder(c as int, d as int);
      Utf8.Behind(front, other, k, x, y);
    } else {
      var k := Utf8.ScalarOrder(d as int, c as int);
      Utf8.Behind(other, front, k, y, x);
      Utf8.OneWay(other + y, front + x, k);
    }
  }

  lemma {:induction false} LessTotal(a: string, b: string)
    ensures a == b || Less(a, b) || Less(b, a)
    ensures !(Less(a, b) && Less(b, a)) && !(a == b && Less(a, b))
    decreases |a|
  {
    if a != [] && b != [] && a[0] == b[0] {
      LessTotal(a[1..], b[1..]);
      assert a == [a[0]] + a[1..] && b == [b[0]] + b[1..];
    }
  }

  lemma {:induction false} LessTransitive(a: string, b: string, c: string)
    requires Less(a, b) && Less(b, c)
    ensures Less(a, c)
    decreases |a|
  {
    if a != [] && a[0] == b[0] && b[0] == c[0] {
      LessTransitive(a[1..], b[1..], c[1..]);
    }
  }

  ghost predicate Sorted(s: seq<string>) {
    forall i, j :: 0 <= i < j < |s| ==> Less(s[i], s[j])
  }

  ghost function Elements(s: seq<string>): set<string> { set x | x in s }

  lemma {:induction false} SortedCount(s: seq<string>)
    requires Sorted(s)
    ensures |Elements(s)| == |s|
  {
    if s != [] {
      RestElements(s);
      SortedCount(s[1..]);
      assert s[0] in Elements(s);
      assert Elements(s) == Elements(s[1..]) + {s[0]};
    }
  }

  /** A strictly sorted list is determined by its elements. */
  lemma {:induction false} SortedUnique(a: seq<string>, b: seq<string>)
    requires Sorted(a) && Sorted(b) && Elements(a) == Elements(b)
    ensures a == b
    decreases |a|
  {
    if a == [] {
      assert forall i :: 0 <= i < |b| ==> b[i] in Elements(b);
    } else {
      assert a[0] in Elements(b);
      assert b != [] && b[0] in Elements(a);
      SameFirst(a, b);
      SortedUnique(a[1..], b[1..]) by {
        RestElements(a);
        RestElements(b);
      }
      assert a == [a[0]] + a[1..] && b == [b[0]] + b[1..];
    }
  }

  lemma RestElements(a: seq<string>)
    requires Sorted(a) && a != []
    ensures Sorted(a[1..]) && Elements(a[1..]) == Elements(a) - {a[0]}
  {
    assert a == [a[0]] + a[1..];
    forall x ensures x in Elements(a[1..]) <==> x in Elements(a) - {a[0]} {
      if x in a[1..] {
        var i :| 0 <= i < |a| - 1 && a[1..][i] == x;
        assert Less(a[0], a[i + 1]);
        LessTotal(a[0], x);
      }
    }
  }

  lemma SameFirst(a: seq<string>, b: seq<string>)
    requires Sorted(a) && Sorted(b) && a != [] && b != [] && a[0] in b && b[0] in a
    ensures a[0] == b[0]
  {
    var i :| 0 <= i < |b| && b[i] == a[0];
    var j :| 0 <= j < |a| && a[j] == b[0];
    LessTotal(a[0], b[0]);
  }

  /** sort.Strings on the keys of a map, whose order of iteration is arbitrary. */
  method SortKeys(keys: set<string>) returns (sorted: seq<string>)
    ensures Sorted(sorted) && Elements(sorted) == keys
  {
    sorted := [];
    var rest := keys;
    while rest != {}
      invariant rest <= keys && Sorted(sorted) && Elements(sorted) == keys - rest
      decreases rest
    {
      var key :| key in rest;
      sorted := InsertKey(sorted, key);
      rest := rest - {key};
    }
  }

  method InsertKey(s: seq<string>, key: string) returns (r: seq<string>)
    requires Sorted(s) && key !in s
    ensures Sorted(r) && Elements(r) == Elements(s) + {key}
  {
    var k := 0;
    while k < |s| && Less(s[k], key)
      invariant 0 <= k <= |s| && forall i :: 0 <= i < k ==> Less(s[i], key)
    {
      k := k + 1;
    }
    forall i | k <= i < |s| ensures Less(key, s[i]) {
      LessTotal(key, s[k]);
      assert s[k] in s;
      if k < i { LessTransitive(key, s[k], s[i]); }
    }
    r := s[..k] + [key] + s[k..];
    assert forall x :: x in r <==> x in s || x == key by {
      assert s == s[..k] + s[k..];
    }
  }
}
