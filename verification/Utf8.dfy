/** UTF-8 as section 3 of RFC 3629 defines it, and the validity test of the log parser. */
module Utf8 {
  import opened Common

  /** A Unicode scalar value: any code point but the surrogates. */
  predicate Scalar(u: nat) {
    u < 0xD800 || 0xE000 <= u < 0x110000
  }

  function EncodeScalar(u: nat): (r: seq<byte>)
    requires Scalar(u)
    ensures 1 <= |r| <= 4 && (u < 0x10000 ==> |r| <= 3)
  {
    if u < 0x80 then [u]
    else if u < 0x800 then [0xC0 + u / 0x40, 0x80 + u % 0x40]
    else if u < 0x10000 then [0xE0 + u / 0x1000, 0x80 + u / 0x40 % 0x40, 0x80 + u % 0x40]
    else [0xF0 + u / 0x40000, 0x80 + u / 0x1000 % 0x40, 0x80 + u / 0x40 % 0x40, 0x80 + u % 0x40]
  }

  function Encode(us: seq<nat>): seq<byte>
    requires forall i :: 0 <= i < |us| ==> Scalar(us[i])
  {
    if us == [] then [] else Encode(us[..|us| - 1]) + EncodeScalar(us[|us| - 1])
  }

  predicate Continues(b: seq<byte>, i: nat, low: byte, high: byte) {
    i < |b| && low <= b[i] <= high
  }

  /** The length of the well-formed sequence at the front, 0 if there is none. */
  function LeadLength(b: seq<byte>): (n: nat)
    ensures n <= |b|
  {
    if b == [] then 0
    else if b[0] < 0x80 then 1
    else if 0xC2 <= b[0] <= 0xDF then (if Continues(b, 1, 0x80, 0xBF) then 2 else 0)
    else if 0xE0 <= b[0] <= 0xEF then
      var low := if b[0] == 0xE0 then 0xA0 else 0x80;
      var high := if b[0] == 0xED then 0x9F else 0xBF;
      if Continues(b, 1, low, high) && Continues(b, 2, 0x80, 0xBF) then 3 else 0
    else if 0xF0 <= b[0] <= 0xF4 then
      var low := if b[0] == 0xF0 then 0x90 else 0x80;
      var high := if b[0] == 0xF4 then 0x8F else 0xBF;
      if Continues(b, 1, low, high) && Continues(b, 2, 0x80, 0xBF) && Continues(b, 3, 0x80, 0xBF) then 4 else 0
    else 0
  }

  /** utf8.Valid. */
  predicate Valid(b: seq<byte>)
    decreases |b|
  {
    b == [] || (LeadLength(b) > 0 && Valid(b[LeadLength(b)..]))
  }

  function DecodeLead(b: seq<byte>): nat
    requires LeadLength(b) > 0
  {
    match LeadLength(b)
    case 1 => b[0]
    case 2 => Pack(b[0] as int - 0xC0, Low(b[1]))
    case 3 => Pack(Pack(b[0] as int - 0xE0, Low(b[1])), Low(b[2]))
    case _ => Pack(Pack(Pack(b[0] as int - 0xF0, Low(b[1])), Low(b[2])), Low(b[3]))
  }

  /** The six payload bits of a continuation byte. */
  function Low(b: byte): nat
    requires 0x80 <= b < 0xC0
  {
    b as int - 0x80
  }

  function Pack(high: nat, low: nat): nat { high * 0x40 + low }

  lemma Unpack(high: nat, low: nat)
    requires low < 0x40
    ensures Pack(high, low) / 0x40 == high && Pack(high, low) % 0x40 == low
  {
  }

  function Decode(b: seq<byte>): seq<nat>
    requires Valid(b)
    decreases |b|
  {
    if b == [] then [] else [DecodeLead(b)] + Decode(b[LeadLength(b)..])
  }

  lemma Quotients(u: nat)
    ensures u / 0x1000 == u / 0x40 / 0x40 && u / 0x40000 == u / 0x40 / 0x40 / 0x40
    ensures Pack(u / 0x40, u % 0x40) == u
  {
  }

  /** The front of an encoding is recognised and decoded, whatever follows. */
  lemma LeadOfScalar(u: nat, rest: seq<byte>)
    requires Scalar(u)
    ensures LeadLength(EncodeScalar(u) + rest) == |EncodeScalar(u)|
    ensures DecodeLead(EncodeScalar(u) + rest) == u
  {
    Quotients(u);
    Quotients(u / 0x40);
    Quotients(u / 0x40 / 0x40);
    var b := EncodeScalar(u) + rest;
    assert b[..|EncodeScalar(u)|] == EncodeScalar(u);
  }

  lemma ScalarOfLead(b: seq<byte>)
    requires LeadLength(b) > 0
    ensures Scalar(DecodeLead(b)) && EncodeScalar(DecodeLead(b)) == b[..LeadLength(b)]
  {
    var n := LeadLength(b);
    if n == 2 {
      Unpack(b[0] as int - 0xC0, Low(b[1]));
    } else if n == 3 {
      ThreeBytes(b);
    } else if n == 4 {
      FourBytes(b);
    }
  }

  lemma ThreeBytes(b: seq<byte>)
    requires LeadLength(b) == 3
    ensures Scalar(DecodeLead(b)) && EncodeScalar(DecodeLead(b)) == b[..3]
  {
    var high := Pack(b[0] as int - 0xE0, Low(b[1]));
    Unpack(b[0] as int - 0xE0, Low(b[1]));
    Unpack(high, Low(b[2]));
    Quotients(DecodeLead(b));
  }

  lemma FourBytes(b: seq<byte>)
    requires LeadLength(b) == 4
    ensures Scalar(DecodeLead(b)) && EncodeScalar(DecodeLead(b)) == b[..4]
  {
    var high := Pack(b[0] as int - 0xF0, Low(b[1]));
    var mid := Pack(high, Low(b[2]));
    Unpack(b[0] as int - 0xF0, Low(b[1]));
    Unpack(high, Low(b[2]));
    Unpack(mid, Low(b[3]));
    Quotients(DecodeLead(b));
  }

  lemma {:induction false} EncodeHead(us: seq<nat>)
    requires us != [] && forall i :: 0 <= i < |us| ==> Scalar(us[i])
    ensures Encode(us) == EncodeScalar(us[0]) + Encode(us[1..])
    decreases |us|
  {
    var n := |us| - 1;
    var tail := us[1..];
    if n > 0 {
      EncodeHead(us[..n]);
      assert us[..n][1..] == tail[..n - 1] && tail[n - 1] == us[n];
      Assoc(EncodeScalar(us[0]), Encode(tail[..n - 1]), EncodeScalar(us[n]));
    } else {
      assert us[..0] == [] && tail == [];
    }
  }

  predicate AllScalar(us: seq<nat>) { forall i :: 0 <= i < |us| ==> Scalar(us[i]) }

  lemma Rejoin(b: seq<byte>, n: nat, u: nat, us: seq<nat>)
    requires n <= |b| && Scalar(u) && AllScalar(us) && EncodeScalar(u) == b[..n] && Encode(us) == b[n..]
    ensures AllScalar([u] + us) && Encode([u] + us) == b
  {
    ConsTail(u, us);
    EncodeHead([u] + us);
    SplitAt(b, n);
  }

  /** Decoding undoes encoding, and an encoding is valid. */
  lemma {:induction false} DecodeEncode(us: seq<nat>)
    requires forall i :: 0 <= i < |us| ==> Scalar(us[i])
    ensures Valid(Encode(us)) && Decode(Encode(us)) == us
    decreases |us|
  {
    if us != [] {
      EncodeHead(us);
      var head, tail := EncodeScalar(us[0]), Encode(us[1..]);
      LeadOfScalar(us[0], tail);
      assert (head + tail)[|head|..] == tail;
      DecodeEncode(us[1..]);
    }
  }

  /** Valid bytes are exactly the encodings: no overlong form, surrogate or stray byte passes. */
  lemma {:induction false} EncodeDecode(b: seq<byte>)
    requires Valid(b)
    ensures AllScalar(Decode(b)) && Encode(Decode(b)) == b
    decreases |b|
  {
    if b != [] {
      var n := LeadLength(b);
      EncodeDecode(b[n..]);
      ScalarOfLead(b);
      Rejoin(b, n, DecodeLead(b), Decode(b[n..]));
    }
  }

  // ---- The table of section 3 of RFC 3629 --------------------------------------------------

  /** Every code point but a surrogate has a form, the shortest one whose payload bits can hold it. */
  lemma ScalarForm(u: nat)
    ensures Scalar(u) <==> u <= 0x10FFFF && !(0xD800 <= u <= 0xDFFF)
    ensures u <= 0x7F ==> EncodeScalar(u) == [u]
    ensures 0x80 <= u <= 0x7FF ==>
              exists a: int, b: int :: 0x80 <= b <= 0xBF && 0xC2 <= a <= 0xDF && EncodeScalar(u) == [a, b] && u == (a - 0xC0) * 64 + (b - 0x80)
    ensures 0x800 <= u <= 0xFFFF && Scalar(u) ==>
              exists a: int, b: int, c: int :: 0x80 <= b <= 0xBF && 0x80 <= c <= 0xBF && 0xE0 <= a <= 0xEF && EncodeScalar(u) == [a, b, c]
                                && u == (a - 0xE0) * 4096 + (b - 0x80) * 64 + (c - 0x80)
    ensures 0x10000 <= u && Scalar(u) ==>
              exists a: int, b: int, c: int, d: int ::
                0x80 <= b <= 0xBF && 0x80 <= c <= 0xBF && 0x80 <= d <= 0xBF && 0xF0 <= a <= 0xF4 && EncodeScalar(u) == [a, b, c, d]
                                   && u == (a - 0xF0) * 262144 + (b - 0x80) * 4096 + (c - 0x80) * 64 + (d - 0x80)
  {
    Quotients(u);
    Quotients(u / 0x40);
    if 0x80 <= u <= 0x7FF {
      var r := EncodeScalar(u);
      assert r == [r[0], r[1]];
    } else if 0x800 <= u <= 0xFFFF && Scalar(u) {
      var r := EncodeScalar(u);
      assert r == [r[0], r[1], r[2]];
    } else if 0x10000 <= u && Scalar(u) {
      var r := EncodeScalar(u);
      assert r == [r[0], r[1], r[2], r[3]];
    }
  }

  /** What the validity test accepts: the encodings of sequences of scalar values, one after the other. */
  lemma ValidMeans(b: seq<byte>)
    ensures Valid(b) <==> exists us :: AllScalar(us) && b == Encode(us)
  {
    if Valid(b) { EncodeDecode(b); }
    if us :| AllScalar(us) && b == Encode(us) { DecodeEncode(us); }
  }

  // ---- Order -----------------------------------------------------------------------------------

  /** The first difference is at `k`, and the first sequence has the smaller byte there. */
  ghost predicate DropsAt(a: seq<byte>, b: seq<byte>, k: int) {
    0 <= k < |a| && k < |b| && (forall i :: 0 <= i < k ==> a[i] == b[i]) && a[k] < b[k]
  }

  /** The order of byte sequences. */
  ghost predicate BytesLess(a: seq<byte>, b: seq<byte>) {
    a < b || exists k :: DropsAt(a, b, k)
  }

  lemma Higher(u: nat, v: nat)
    requires u < v
    ensures u / 0x40 < v / 0x40 || (u / 0x40 == v / 0x40 && u % 0x40 < v % 0x40)
  {
  }

  /** The order of code points is the order of their encodings. */
  lemma ScalarOrder(u: nat, v: nat) returns (k: int)
    requires Scalar(u) && Scalar(v) && u < v
    ensures DropsAt(EncodeScalar(u), EncodeScalar(v), k)
  {
    k := 0;
    if 0x80 <= u && v < 0x800 {
      Higher(u, v);
      k := if u / 0x40 < v / 0x40 then 0 else 1;
    } else if 0x800 <= u && v < 0x10000 {
      k := OrderOfThree(u, v);
    } else if 0x10000 <= u {
      k := OrderOfFour(u, v);
    }
  }

  lemma OrderOfThree(u: nat, v: nat) returns (k: int)
    requires Scalar(u) && Scalar(v) && 0x800 <= u < v < 0x10000
    ensures DropsAt(EncodeScalar(u), EncodeScalar(v), k)
  {
    var p, q := u / 0x40, v / 0x40;
    Quotients(u);
    Quotients(v);
    Higher(u, v);
    if p == q {
      k := 2;
    } else {
      Higher(p, q);
      k := if p / 0x40 < q / 0x40 then 0 else 1;
    }
  }

  lemma OrderOfFour(u: nat, v: nat) returns (k: int)
    requires Scalar(u) && Scalar(v) && 0x10000 <= u < v
    ensures DropsAt(EncodeScalar(u), EncodeScalar(v), k)
  {
    var p, q := u / 0x40, v / 0x40;
    Quotients(u);
    Quotients(v);
    Higher(u, v);
    if p == q {
      k := 3;
    } else {
      Higher(p, q);
      if p / 0x40 == q / 0x40 {
        k := 2;
      } else {
        Higher(p / 0x40, q / 0x40);
        k := if p / 0x40 / 0x40 < q / 0x40 / 0x40 then 0 else 1;
      }
    }
  }

  lemma Behind(a: seq<byte>, b: seq<byte>, k: int, x: seq<byte>, y: seq<byte>)
    requires DropsAt(a, b, k)
    ensures DropsAt(a + x, b + y, k)
  {
  }

  lemma OneWay(a: seq<byte>, b: seq<byte>, k: int)
    requires DropsAt(a, b, k)
    ensures !BytesLess(b, a)
  {
  }

  lemma CommonFront(h: seq<byte>, x: seq<byte>, y: seq<byte>)
    ensures BytesLess(h + x, h + y) <==> BytesLess(x, y)
  {
    if k :| DropsAt(x, y, k) { assert DropsAt(h + x, h + y, |h| + k); }
    if k :| DropsAt(h + x, h + y, k) { BehindFront(h, x, y, k); }
    PrefixBehind(h, x, y);
  }

  lemma BehindFront(h: seq<byte>, x: seq<byte>, y: seq<byte>, k: int)
    requires DropsAt(h + x, h + y, k)
    ensures DropsAt(x, y, k - |h|)
  {
    assert forall i :: 0 <= i < |h| ==> (h + x)[i] == h[i] == (h + y)[i];
    forall i | 0 <= i < k - |h| ensures x[i] == y[i] {
      assert (h + x)[|h| + i] == (h + y)[|h| + i];
    }
  }

  lemma PrefixBehind(h: seq<byte>, x: seq<byte>, y: seq<byte>)
    ensures h + x < h + y <==> x < y
  {
    if h + x < h + y {
      forall i | 0 <= i < |x| ensures x[i] == y[i] {
        assert (h + x)[|h| + i] == (h + y)[|h| + i];
      }
    }
  }
}
