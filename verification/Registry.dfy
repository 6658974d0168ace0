/**
 * The subscriber registry (internal/subscriber/store.go): guarded transactions
 * on the two authoritative tables, against a native process that may write
 * between any two of our queries.
 */
module Registry {
  import opened Common

  datatype SipRow = SipRow(name: string, callerid: Option<string>)
  datatype DialRow = DialRow(exten: string, dial: string)
  datatype Tables = Tables(sip: seq<SipRow>, dial: seq<DialRow>)

  // ---- Queries and updates -----------------------------------------------------------

  function CountSip(sip: seq<SipRow>, id: string): nat {
    if sip == [] then 0 else CountSip(sip[1..], id) + (if sip[0].name == id then 1 else 0)
  }

  function CountDial(dial: seq<DialRow>, id: string): nat {
    if dial == [] then 0 else CountDial(dial[1..], id) + (if dial[0].dial == id then 1 else 0)
  }

  /** Whether an identity has no row, or not more than one. */
  lemma {:induction false} CountSipMeans(sip: seq<SipRow>, id: string)
    ensures CountSip(sip, id) == 0 <==> forall i :: 0 <= i < |sip| ==> sip[i].name != id
    ensures CountSip(sip, id) <= 1 <==> forall i, j :: 0 <= i < j < |sip| ==> sip[i].name != id || sip[j].name != id
  {
    if sip != [] {
      var rest := sip[1..];
      CountSipMeans(rest, id);
      assert forall i :: 1 <= i < |sip| ==> sip[i] == rest[i - 1];
      assert forall i :: 0 <= i < |rest| ==> rest[i] == sip[i + 1];
    }
  }

  lemma {:induction false} CountDialMeans(dial: seq<DialRow>, id: string)
    ensures CountDial(dial, id) == 0 <==> forall i :: 0 <= i < |dial| ==> dial[i].dial != id
    ensures CountDial(dial, id) <= 1 <==> forall i, j :: 0 <= i < j < |dial| ==> dial[i].dial != id || dial[j].dial != id
  {
    if dial != [] {
      var rest := dial[1..];
      CountDialMeans(rest, id);
      assert forall i :: 1 <= i < |dial| ==> dial[i] == rest[i - 1];
      assert forall i :: 0 <= i < |rest| ==> rest[i] == dial[i + 1];
    }
  }

  /** Some other identity has the number in one of the tables. */
  predicate Conflict(t: Tables, id: string, number: string) {
    || (exists i :: 0 <= i < |t.sip| && t.sip[i].callerid == Some(number) && t.sip[i].name != id)
    || (exists i :: 0 <= i < |t.dial| && t.dial[i].exten == number && t.dial[i].dial != id)
  }

  /** UPDATE sip_buddies SET callerid WHERE name. */
  function SetCaller(sip: seq<SipRow>, id: string, v: string): (r: seq<SipRow>)
    ensures |r| == |sip|
    ensures forall i :: 0 <= i < |r| ==> r[i] == (if sip[i].name == id then SipRow(id, Some(v)) else sip[i])
  {
    if sip == [] then []
    else [if sip[0].name == id then SipRow(id, Some(v)) else sip[0]] + SetCaller(sip[1..], id, v)
  }

  /** UPDATE dialdata_table SET exten WHERE dial. */
  function SetExten(dial: seq<DialRow>, id: string, v: string): (r: seq<DialRow>)
    ensures |r| == |dial|
    ensures forall i :: 0 <= i < |r| ==> r[i] == (if dial[i].dial == id then DialRow(v, id) else dial[i])
  {
    if dial == [] then []
    else [if dial[0].dial == id then DialRow(v, id) else dial[0]] + SetExten(dial[1..], id, v)
  }

  /** INSERT unless the identity has a row already. */
  function EnsureDial(dial: seq<DialRow>, id: string, v: string): seq<DialRow> {
    if CountDial(dial, id) == 0 then dial + [DialRow(v, id)] else dial
  }

  lemma {:induction false} CountAppend(dial: seq<DialRow>, row: DialRow, id: string)
    ensures CountDial(dial + [row], id) == CountDial(dial, id) + (if row.dial == id then 1 else 0)
  {
    if dial == [] {
      assert CountDial([row], id) == CountDial([row][1..], id) + (if row.dial == id then 1 else 0);
      assert dial + [row] == [row];
    } else {
      assert (dial + [row])[1..] == dial[1..] + [row];
      CountAppend(dial[1..], row, id);
    }
  }

  /** After the conditional insert an identity with at most one row has exactly one. */
  lemma EnsureDialCount(dial: seq<DialRow>, id: string, v: string)
    requires CountDial(dial, id) <= 1
    ensures CountDial(EnsureDial(dial, id, v), id) == 1
  {
    CountAppend(dial, DialRow(v, id), id);
  }

  // ---- The transactions ---------------------------------------------------------------

  /** The first three guards of Bind. */
  predicate BindGuards(t: Tables, id: string, number: string) {
    CountSip(t.sip, id) == 1 && CountDial(t.dial, id) <= 1 && !Conflict(t, id, number)
  }

  /** The two leading guards of Unbind. */
  predicate UnbindGuards(t: Tables, id: string) {
    CountSip(t.sip, id) == 1 && CountDial(t.dial, id) <= 1
  }

  function Bound(t: Tables, id: string, number: string): Tables {
    Tables(SetCaller(t.sip, id, number), SetExten(EnsureDial(t.dial, id, number), id, number))
  }

  function Unbound(t: Tables, id: string): Tables {
    Tables(SetCaller(t.sip, id, ""), SetExten(t.dial, id, ""))
  }

  /** The rows in order, those of the identity changed and no others. */
  ghost predicate SipChanged(before: seq<SipRow>, after: seq<SipRow>, id: string, number: string) {
    && |after| == |before|
    && (forall i :: 0 <= i < |before| ==> after[i] == if before[i].name == id then SipRow(id, Some(number)) else before[i])
  }

  ghost predicate DialChanged(before: seq<DialRow>, after: seq<DialRow>, id: string, number: string) {
    && |after| >= |before|
    && (forall i :: 0 <= i < |before| ==> after[i] == if before[i].dial == id then DialRow(number, id) else before[i])
  }

  ghost predicate Dialled(dial: seq<DialRow>, id: string) { exists i :: 0 <= i < |dial| && dial[i].dial == id }

  /** A bind changes the rows of its identity only, and adds its dial row if there is none. */
  lemma BoundMeans(t: Tables, id: string, number: string)
    ensures SipChanged(t.sip, Bound(t, id, number).sip, id, number)
    ensures
      var dial := Bound(t, id, number).dial;
      && DialChanged(t.dial, dial, id, number)
      && (if Dialled(t.dial, id) then |dial| == |t.dial| else |dial| == |t.dial| + 1 && dial[|t.dial|] == DialRow(number, id))
  {
    CountDialMeans(t.dial, id);
  }

  /** An unbind clears the number in the rows of its identity and changes nothing else. */
  lemma UnboundMeans(t: Tables, id: string)
    ensures SipChanged(t.sip, Unbound(t, id).sip, id, "")
    ensures DialChanged(t.dial, Unbound(t, id).dial, id, "") && |Unbound(t, id).dial| == |t.dial|
  {
  }

  class Database {
    var sip: seq<SipRow>
    var dial: seq<DialRow>

    ghost function Now(): Tables
      reads this
    {
      Tables(sip, dial)
    }

    /** Another process replaces the contents between two of our statements. */
    method Become(t: Tables)
      modifies this
      ensures Now() == t
    {
      sip, dial := t.sip, t.dial;
    }

    method Rollback(t: Tables)
      modifies this
      ensures Now() == t
    {
      sip, dial := t.sip, t.dial;
    }

    /**
     * Bind's transaction, statement by statement. Each guard inserts 1 into a
     * table that accepts nothing else; `fails(k)` lets statement `k` fail for a
     * reason of its own. Any failure rolls back.
     */
    method BindTransaction(id: string, number: string, fails: nat -> bool) returns (ok: bool)
      modifies this
      ensures ok ==> Now() == Bound(old(Now()), id, number)
      ensures !ok ==> Now() == old(Now())
      ensures ok <==> BindGuards(old(Now()), id, number) && forall k :: 0 <= k < 8 ==> !fails(k)
    {
      var before := Tables(sip, dial);
      if fails(0) || CountSip(sip, id) != 1 { return false; }
      if fails(1) || !(CountDial(dial, id) <= 1) { return false; }
      if fails(2) || Conflict(Tables(sip, dial), id, number) { return false; }
      var changes := CountSip(sip, id);
      if fails(3) { return false; }
      sip := SetCaller(sip, id, number);
      if fails(4) || changes != 1 {
        Rollback(before);
        return false;
      }
      EnsureDialCount(dial, id, number);
      if fails(5) {
        Rollback(before);
        return false;
      }
      dial := EnsureDial(dial, id, number);
      changes := CountDial(dial, id);
      if fails(6) {
        Rollback(before);
        return false;
      }
      dial := SetExten(dial, id, number);
      if fails(7) || changes != 1 {
        Rollback(before);
        return false;
      }
      ok := true;
    }

    /** Unbind's transaction. */
    method UnbindTransaction(id: string, fails: nat -> bool) returns (ok: bool)
      modifies this
      ensures ok ==> Now() == Unbound(old(Now()), id)
      ensures !ok ==> Now() == old(Now())
      ensures ok <==> UnbindGuards(old(Now()), id) && forall k :: 0 <= k < 5 ==> !fails(k)
    {
      var before := Tables(sip, dial);
      if fails(0) || CountSip(sip, id) != 1 { return false; }
      if fails(1) || !(CountDial(dial, id) <= 1) { return false; }
      var changes := CountSip(sip, id);
      if fails(2) { return false; }
      sip := SetCaller(sip, id, "");
      if fails(3) || changes != 1 {
        Rollback(before);
        return false;
      }
      dial := SetExten(dial, id, "");
      if fails(4) {
        Rollback(before);
        return false;
      }
      ok := true;
    }
  }

  // ---- Ownership ------------------------------------------------------------------------

  /** The identity has the number in one of the tables. */
  ghost predicate Holds(t: Tables, number: string, id: string) {
    || (exists i :: 0 <= i < |t.sip| && t.sip[i] == SipRow(id, Some(number)))
    || (exists i :: 0 <= i < |t.dial| && t.dial[i] == DialRow(number, id))
  }

  /** Every non-empty number belongs to one identity. */
  ghost predicate Owned(t: Tables) {
    forall number, a, b :: number != "" && Holds(t, number, a) && Holds(t, number, b) ==> a == b
  }

  lemma BoundHolds(t: Tables, id: string, number: string, n: string, a: string)
    requires Holds(Bound(t, id, number), n, a)
    ensures (n == number && a == id) || (a != id && Holds(t, n, a))
  {
    var u := Bound(t, id, number);
    var dial := EnsureDial(t.dial, id, number);
    if i :| 0 <= i < |u.sip| && u.sip[i] == SipRow(a, Some(n)) {
      if t.sip[i].name != id { assert t.sip[i] == SipRow(a, Some(n)); }
    } else {
      var i :| 0 <= i < |u.dial| && u.dial[i] == DialRow(n, a);
      if dial[i].dial != id { assert t.dial[i] == DialRow(n, a); }
    }
  }

  lemma UnboundHolds(t: Tables, id: string, n: string, a: string)
    requires Holds(Unbound(t, id), n, a) && n != ""
    ensures Holds(t, n, a)
  {
    var u := Unbound(t, id);
    if i :| 0 <= i < |u.sip| && u.sip[i] == SipRow(a, Some(n)) {
      assert t.sip[i] == SipRow(a, Some(n));
    } else {
      var i :| 0 <= i < |u.dial| && u.dial[i] == DialRow(n, a);
      assert t.dial[i] == DialRow(n, a);
    }
  }

  lemma ConflictFree(t: Tables, id: string, number: string, a: string)
    requires !Conflict(t, id, number) && Holds(t, number, a)
    ensures a == id
  {
  }

  lemma BindKeepsOwnership(t: Tables, id: string, number: string)
    requires Owned(t) && BindGuards(t, id, number)
    ensures Owned(Bound(t, id, number))
  {
    var u := Bound(t, id, number);
    forall n, a, b | n != "" && Holds(u, n, a) && Holds(u, n, b) ensures a == b {
      BoundHolds(t, id, number, n, a);
      BoundHolds(t, id, number, n, b);
      if n == number {
        if a != id { ConflictFree(t, id, number, a); }
        if b != id { ConflictFree(t, id, number, b); }
      }
    }
  }

  lemma UnbindKeepsOwnership(t: Tables, id: string)
    requires Owned(t)
    ensures Owned(Unbound(t, id))
  {
    var u := Unbound(t, id);
    forall n, a, b | n != "" && Holds(u, n, a) && Holds(u, n, b) ensures a == b {
      UnboundHolds(t, id, n, a);
      UnboundHolds(t, id, n, b);
    }
  }

  /** What can happen to the tables: our transactions, which take effect or not, and native writes. */
  datatype Step =
    | Bind(id: string, number: string, committed: bool)
    | Unbind(id: string, committed: bool)
    | Native

  ghost predicate Next(t: Tables, s: Step, u: Tables) {
    match s
    case Bind(id, number, committed) =>
      if committed then BindGuards(t, id, number) && u == Bound(t, id, number) else u == t
    case Unbind(id, committed) =>
      if committed then UnbindGuards(t, id) && u == Unbound(t, id) else u == t
    case Native => Owned(t) ==> Owned(u)
  }

  ghost predicate IsRun(states: seq<Tables>, steps: seq<Step>) {
    |states| == |steps| + 1 && forall i :: 0 <= i < |steps| ==> Next(states[i], steps[i], states[i + 1])
  }

  /** Number ownership survives every run of binds, unbinds and ownership-preserving native writes. */
  lemma {:induction false} OwnershipInvariant(states: seq<Tables>, steps: seq<Step>, n: nat)
    requires IsRun(states, steps) && n <= |steps| && Owned(states[0])
    ensures Owned(states[n])
    decreases n
  {
    if n > 0 {
      OwnershipInvariant(states, steps, n - 1);
      StepKeepsOwnership(states[n - 1], steps[n - 1], states[n]);
    }
  }

  lemma StepKeepsOwnership(t: Tables, s: Step, u: Tables)
    requires Next(t, s, u) && Owned(t)
    ensures Owned(u)
  {
    match s
    case Bind(id, number, committed) => if committed { BindKeepsOwnership(t, id, number); }
    case Unbind(id, committed) => if committed { UnbindKeepsOwnership(t, id); }
    case Native =>
  }

  /**
   * The guard on conflicts is what keeps ownership: a bind of a non-empty number
   * that passes the counting guards keeps ownership only if nobody else has it.
   */
  lemma ConflictBreaksOwnership(t: Tables, id: string, number: string)
    requires CountSip(t.sip, id) == 1 && number != "" && Conflict(t, id, number)
    ensures !Owned(Bound(t, id, number))
  {
    var u := Bound(t, id, number);
    HasRow(t.sip, id);
    var k :| 0 <= k < |t.sip| && t.sip[k].name == id;
    assert u.sip[k] == SipRow(id, Some(number));
    assert Holds(u, number, id);
    if i :| 0 <= i < |t.sip| && t.sip[i].callerid == Some(number) && t.sip[i].name != id {
      assert u.sip[i] == SipRow(t.sip[i].name, Some(number));
      assert Holds(u, number, t.sip[i].name);
    } else {
      var i :| 0 <= i < |t.dial| && t.dial[i].exten == number && t.dial[i].dial != id;
      assert u.dial[i] == DialRow(number, t.dial[i].dial);
      assert Holds(u, number, t.dial[i].dial);
    }
  }

  lemma {:induction false} HasRow(sip: seq<SipRow>, id: string)
    requires CountSip(sip, id) > 0
    ensures exists k :: 0 <= k < |sip| && sip[k].name == id
  {
    if sip[0].name != id {
      HasRow(sip[1..], id);
      var k :| 0 <= k < |sip| - 1 && sip[1..][k].name == id;
      assert sip[k + 1].name == id;
    }
  }
}
