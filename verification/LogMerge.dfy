/**
 * From log events to messages (internal/parser/sms.go): events that belong to
 * the same queue tag within one process generation become one message.
 */
module LogMerge {
  import opened Common
  import opened SmsRecord

  datatype Candidate = Candidate(identity: Text, position: nat, sms: Sms, structured: bool)

  // ---- Stable order by position ------------------------------------------------------

  function Insert(sorted: seq<Candidate>, c: Candidate): seq<Candidate> {
    if sorted == [] || sorted[|sorted| - 1].position <= c.position then sorted + [c]
    else Insert(sorted[..|sorted| - 1], c) + [sorted[|sorted| - 1]]
  }

  /** sort.SliceStable by position. */
  function StableSort(cs: seq<Candidate>): seq<Candidate> {
    if cs == [] then [] else Insert(StableSort(cs[..|cs| - 1]), cs[|cs| - 1])
  }

  predicate Ascending(cs: seq<Candidate>) {
    forall i, j :: 0 <= i < j < |cs| ==> cs[i].position <= cs[j].position
  }

  function AtPosition(cs: seq<Candidate>, p: nat): seq<Candidate> {
    if cs == [] then []
    else AtPosition(cs[..|cs| - 1], p) + (if cs[|cs| - 1].position == p then [cs[|cs| - 1]] else [])
  }

  lemma {:induction false} InsertAscends(s: seq<Candidate>, c: Candidate)
    requires Ascending(s)
    ensures Ascending(Insert(s, c)) && multiset(Insert(s, c)) == multiset(s) + multiset{c}
    decreases |s|
  {
    if s != [] && s[|s| - 1].position > c.position {
      var init, last := s[..|s| - 1], s[|s| - 1];
      InsertAscends(init, c);
      SplitLast(s);
      AscendsLast(Insert(init, c), init, c, last);
    }
  }

  lemma AscendsLast(t: seq<Candidate>, init: seq<Candidate>, c: Candidate, last: Candidate)
    requires Ascending(t) && Ascending(init + [last]) && multiset(t) == multiset(init) + multiset{c}
    requires c.position <= last.position
    ensures Ascending(t + [last])
  {
    forall i | 0 <= i < |t| ensures t[i].position <= last.position {
      assert t[i] in multiset(t);
      if t[i] != c {
        assert t[i] in multiset(init);
        var k :| 0 <= k < |init| && init[k] == t[i];
        assert (init + [last])[k] == t[i] && (init + [last])[|init|] == last;
      }
    }
  }

  /** The new candidate comes after all others of its position. */
  lemma {:induction false} InsertStable(s: seq<Candidate>, c: Candidate, p: nat)
    requires Ascending(s)
    ensures AtPosition(Insert(s, c), p) == AtPosition(s, p) + (if c.position == p then [c] else [])
    decreases |s|
  {
    if s == [] || s[|s| - 1].position <= c.position {
      AtPositionLast(s, c, p);
    } else {
      var init, last := s[..|s| - 1], s[|s| - 1];
      InsertStable(init, c, p);
      AtPositionLast(Insert(init, c), last, p);
    }
  }

  lemma AtPositionLast(s: seq<Candidate>, c: Candidate, p: nat)
    ensures AtPosition(s + [c], p) == AtPosition(s, p) + (if c.position == p then [c] else [])
  {
    assert (s + [c])[..|s|] == s;
  }

  /** The sort orders by position, loses nothing, and keeps the order of equal positions. */
  lemma {:induction false} SortSpec(cs: seq<Candidate>, p: nat)
    ensures Ascending(StableSort(cs)) && multiset(StableSort(cs)) == multiset(cs)
    ensures AtPosition(StableSort(cs), p) == AtPosition(cs, p)
    decreases |cs|
  {
    SortOrders(cs);
    if cs != [] {
      var init := cs[..|cs| - 1];
      SortSpec(init, p);
      InsertStable(StableSort(init), cs[|cs| - 1], p);
    }
  }

  lemma {:induction false} SortOrders(cs: seq<Candidate>)
    ensures Ascending(StableSort(cs)) && multiset(StableSort(cs)) == multiset(cs)
    decreases |cs|
  {
    if cs != [] {
      var init := cs[..|cs| - 1];
      SortOrders(init);
      InsertAscends(StableSort(init), cs[|cs| - 1]);
      SplitLast(cs);
    }
  }

  // ---- The specification: one message per identity ------------------------------------

  datatype Part = Time | Body | SenderNumber | SenderImsi | ReceiverNumber | ReceiverImsi

  function Get(s: Sms, f: Part): Text {
    match f
    case Time => s.time
    case Body => s.text
    case SenderNumber => s.senderNumber
    case SenderImsi => s.senderImsi
    case ReceiverNumber => s.receiverNumber
    case ReceiverImsi => s.receiverImsi
  }

  /** Identities in the order of their first appearance. */
  function Identities(cs: seq<Candidate>): seq<Text> {
    if cs == [] then []
    else
      var init, id := Identities(cs[..|cs| - 1]), cs[|cs| - 1].identity;
      if id in init then init else init + [id]
  }

  function Group(cs: seq<Candidate>, id: Text): seq<Candidate> {
    if cs == [] then []
    else Group(cs[..|cs| - 1], id) + (if cs[|cs| - 1].identity == id then [cs[|cs| - 1]] else [])
  }

  /** The first non-empty value of a part. */
  function First(group: seq<Candidate>, f: Part): Text {
    if group == [] then []
    else
      var earlier := First(group[..|group| - 1], f);
      if earlier != [] then earlier else Get(group[|group| - 1].sms, f)
  }

  /** The index of the first structured candidate; the length of the group if there is none. */
  function FirstStructured(group: seq<Candidate>): (k: nat)
    ensures k <= |group|
    ensures k < |group| ==> group[k].structured
    ensures forall i :: 0 <= i < k ==> !group[i].structured
  {
    if group == [] || group[0].structured then 0 else 1 + FirstStructured(group[1..])
  }

  /**
   * The message of a group. A structured candidate decides everything but the
   * time, which is the first one known up to then; without a structured
   * candidate each part is the first known one.
   */
  function Message(group: seq<Candidate>): Sms {
    var k := FirstStructured(group);
    if k < |group| then group[k].sms.(time := First(group[..k + 1], Time))
    else Sms(First(group, Time), First(group, Body), First(group, SenderNumber), First(group, SenderImsi),
             First(group, ReceiverNumber), First(group, ReceiverImsi))
  }

  ghost predicate IsFirstAt(group: seq<Candidate>, f: Part, v: Text, k: nat) {
    && k < |group| && v == Get(group[k].sms, f) != []
    && forall i :: 0 <= i < k ==> Get(group[i].sms, f) == []
  }

  lemma {:induction false} FirstMeaning(group: seq<Candidate>, f: Part)
    ensures if First(group, f) == [] then forall i :: 0 <= i < |group| ==> Get(group[i].sms, f) == []
            else exists k: nat :: IsFirstAt(group, f, First(group, f), k)
    decreases |group|
  {
    if group != [] {
      var n := |group| - 1;
      FirstMeaning(group[..n], f);
      if First(group[..n], f) != [] {
        var k: nat :| IsFirstAt(group[..n], f, First(group[..n], f), k);
        assert IsFirstAt(group, f, First(group, f), k);
      } else if First(group, f) != [] {
        assert forall i :: 0 <= i < n ==> group[..n][i] == group[i];
        assert IsFirstAt(group, f, First(group, f), n);
      } else {
        assert forall i :: 0 <= i < n ==> group[..n][i] == group[i];
      }
    }
  }

  ghost predicate AppearsBefore(cs: seq<Candidate>, a: Text, b: Text) {
    exists i :: 0 <= i < |cs| && cs[i].identity == a && forall j :: 0 <= j <= i ==> cs[j].identity != b
  }

  /** Each identity once, none invented or lost, in the order of first appearance. */
  lemma {:induction false} IdentitiesMeaning(cs: seq<Candidate>)
    ensures forall id :: id in Identities(cs) <==> exists c :: c in cs && c.identity == id
    ensures forall i, j :: 0 <= i < j < |Identities(cs)| ==>
              Identities(cs)[i] != Identities(cs)[j] && AppearsBefore(cs, Identities(cs)[i], Identities(cs)[j])
    decreases |cs|
  {
    if cs != [] {
      var n := |cs| - 1;
      var init, last := cs[..n], cs[n];
      IdentitiesMeaning(init);
      assert cs == init + [last];
      var ids := Identities(cs);
      forall id ensures id in ids <==> exists c :: c in cs && c.identity == id {
        if id == last.identity { assert last in cs; }
        if id in Identities(init) {
          var c :| c in init && c.identity == id;
          assert c in cs;
        }
      }
      forall i, j | 0 <= i < j < |ids| ensures ids[i] != ids[j] && AppearsBefore(cs, ids[i], ids[j]) {
        if j < |Identities(init)| {
          assert AppearsBefore(init, ids[i], ids[j]);
          var k :| 0 <= k < |init| && init[k].identity == ids[i] && forall m :: 0 <= m <= k ==> init[m].identity != ids[j];
          assert cs[k].identity == ids[i] && forall m :: 0 <= m <= k ==> cs[m] == init[m];
        } else {
          assert ids[i] in Identities(init);
          var c :| c in init && c.identity == ids[i];
          var k :| 0 <= k < |init| && init[k] == c;
          assert cs[k] == c;
          assert forall m :: 0 <= m <= k ==> cs[m] == init[m] && init[m] in init;
        }
      }
    }
  }

  // ---- The same, in terms of the candidates -----------------------------------------------

  /** The value is the first one known for this part and identity, or empty if none is known. */
  ghost predicate Known(cs: seq<Candidate>, id: Text, f: Part, v: Text) {
    if v == [] then forall i :: 0 <= i < |cs| && cs[i].identity == id ==> Get(cs[i].sms, f) == []
    else exists k :: KnownAt(cs, id, f, v, k)
  }

  ghost predicate KnownAt(cs: seq<Candidate>, id: Text, f: Part, v: Text, k: int) {
    && 0 <= k < |cs| && cs[k].identity == id && Get(cs[k].sms, f) == v != []
    && forall i :: 0 <= i < k && cs[i].identity == id ==> Get(cs[i].sms, f) == []
  }

  ghost predicate Unstructured(cs: seq<Candidate>, id: Text) {
    forall i :: 0 <= i < |cs| && cs[i].identity == id ==> !cs[i].structured
  }

  /** The first structured candidate of the identity. */
  ghost predicate Decides(cs: seq<Candidate>, id: Text, k: int) {
    0 <= k < |cs| && cs[k].identity == id && cs[k].structured && Unstructured(cs[..k], id)
  }

  ghost predicate DecidedBy(cs: seq<Candidate>, id: Text, k: int, m: Sms)
    requires Decides(cs, id, k)
  {
    && (forall f: Part :: f != Time ==> Get(m, f) == Get(cs[k].sms, f))
    && Known(cs[..k + 1], id, Time, m.time)
  }

  /** What the candidates of an identity say: part by part, and which of them says it. */
  ghost predicate MessageOf(cs: seq<Candidate>, id: Text, m: Sms) {
    && (forall k :: Decides(cs, id, k) ==> DecidedBy(cs, id, k, m))
    && (Unstructured(cs, id) ==> forall f: Part :: Known(cs, id, f, Get(m, f)))
  }

  lemma KnownMore(cs: seq<Candidate>, c: Candidate, id: Text, f: Part, v: Text)
    requires Known(cs, id, f, v)
    ensures Known(cs + [c], id, f, if v == [] && c.identity == id then Get(c.sms, f) else v)
  {
    var more := cs + [c];
    if v != [] {
      var k :| KnownAt(cs, id, f, v, k);
      assert KnownAt(more, id, f, v, k);
    } else if c.identity == id && Get(c.sms, f) != [] {
      assert KnownAt(more, id, f, Get(c.sms, f), |cs|);
    }
  }

  lemma {:induction false} FirstKnown(cs: seq<Candidate>, id: Text, f: Part)
    ensures Known(cs, id, f, First(Group(cs, id), f))
    decreases |cs|
  {
    if cs != [] {
      var init, c := cs[..|cs| - 1], cs[|cs| - 1];
      FirstKnown(init, id, f);
      KnownMore(init, c, id, f, First(Group(init, id), f));
      SplitLast(cs);
      GroupLast(cs, id);
      if c.identity == id { FirstGrows(Group(init, id), c, f); }
    }
  }

  lemma GroupLast(cs: seq<Candidate>, id: Text)
    requires cs != []
    ensures
      var earlier, c := Group(cs[..|cs| - 1], id), cs[|cs| - 1];
      Group(cs, id) == if c.identity == id then earlier + [c] else earlier
  {
    var earlier := Group(cs[..|cs| - 1], id);
    assert earlier + [] == earlier;
  }

  lemma FirstGrows(group: seq<Candidate>, c: Candidate, f: Part)
    ensures First(group + [c], f) == if First(group, f) == [] then Get(c.sms, f) else First(group, f)
  {
    assert (group + [c])[..|group|] == group;
  }

  lemma {:induction false} UnstructuredGroup(cs: seq<Candidate>, id: Text)
    requires Unstructured(cs, id)
    ensures !HasStructured(Group(cs, id))
    decreases |cs|
  {
    if cs != [] {
      var init, c := cs[..|cs| - 1], cs[|cs| - 1];
      UnstructuredGroup(init, id);
      GroupLast(cs, id);
      FirstStructuredGrows(Group(init, id), c);
    }
  }

  /** The first structured member of a group, and the group up to it. */
  ghost predicate Leads(group: seq<Candidate>, c: Candidate, upTo: seq<Candidate>) {
    HasStructured(group) && group[FirstStructured(group)] == c && group[..FirstStructured(group) + 1] == upTo
  }

  lemma LeadsLonger(group: seq<Candidate>, c: Candidate, upTo: seq<Candidate>, d: Candidate)
    requires Leads(group, c, upTo)
    ensures Leads(group + [d], c, upTo)
  {
    FirstStructuredGrows(group, d);
    var j := FirstStructured(group);
    assert (group + [d])[..j + 1] == group[..j + 1];
  }

  lemma LeadsLast(group: seq<Candidate>, c: Candidate)
    requires !HasStructured(group) && c.structured
    ensures Leads(group + [c], c, group + [c])
  {
    FirstStructuredGrows(group, c);
  }

  lemma {:induction false} DecidingGroup(cs: seq<Candidate>, id: Text, k: nat)
    requires Decides(cs, id, k)
    ensures Leads(Group(cs, id), cs[k], Group(cs[..k + 1], id))
    decreases |cs|
  {
    var init, c := cs[..|cs| - 1], cs[|cs| - 1];
    GroupLast(cs, id);
    if k == |cs| - 1 {
      UnstructuredGroup(init, id);
      LeadsLast(Group(init, id), c);
      assert cs[..k + 1] == cs;
    } else {
      assert init[..k] == cs[..k] && init[..k + 1] == cs[..k + 1];
      DecidingGroup(init, id, k);
      if c.identity == id { LeadsLonger(Group(init, id), cs[k], Group(cs[..k + 1], id), c); }
    }
  }

  /** The message of a group is what the candidates of its identity say. */
  lemma MessageMeans(cs: seq<Candidate>, id: Text)
    ensures MessageOf(cs, id, Message(Group(cs, id)))
  {
    forall k | Decides(cs, id, k) ensures DecidedBy(cs, id, k, Message(Group(cs, id))) { DecidedMeans(cs, id, k); }
    if Unstructured(cs, id) { UndecidedMeans(cs, id); }
  }

  lemma DecidedMeans(cs: seq<Candidate>, id: Text, k: nat)
    requires Decides(cs, id, k)
    ensures DecidedBy(cs, id, k, Message(Group(cs, id)))
  {
    DecidingGroup(cs, id, k);
    LedMessage(Group(cs, id), cs[k], Group(cs[..k + 1], id));
    FirstKnown(cs[..k + 1], id, Time);
  }

  lemma LedMessage(group: seq<Candidate>, c: Candidate, upTo: seq<Candidate>)
    requires Leads(group, c, upTo)
    ensures Message(group) == c.sms.(time := First(upTo, Time))
  {
  }

  lemma UndecidedMeans(cs: seq<Candidate>, id: Text)
    requires Unstructured(cs, id)
    ensures forall f: Part :: Known(cs, id, f, Get(Message(Group(cs, id)), f))
  {
    UnstructuredGroup(cs, id);
    forall f: Part ensures Known(cs, id, f, Get(Message(Group(cs, id)), f)) {
      FirstKnown(cs, id, f);
      assert Get(Message(Group(cs, id)), f) == First(Group(cs, id), f);
    }
  }

  lemma KnownUnique(cs: seq<Candidate>, id: Text, f: Part, v: Text, w: Text)
    requires Known(cs, id, f, v) && Known(cs, id, f, w)
    ensures v == w
  {
    if v != [] && w != [] {
      var i :| KnownAt(cs, id, f, v, i);
      var j :| KnownAt(cs, id, f, w, j);
      assert i == j;
    }
  }

  lemma {:induction false} SomeDecides(cs: seq<Candidate>, id: Text) returns (k: int)
    requires !Unstructured(cs, id)
    ensures Decides(cs, id, k)
    decreases |cs|
  {
    var n := |cs| - 1;
    if Unstructured(cs[..n], id) {
      k := n;
    } else {
      k := SomeDecides(cs[..n], id);
      assert cs[..n][..k] == cs[..k];
    }
  }

  /** The candidates of an identity say one thing only. */
  lemma MessageUnique(cs: seq<Candidate>, id: Text, m: Sms, n: Sms)
    requires MessageOf(cs, id, m) && MessageOf(cs, id, n)
    ensures m == n
  {
    forall f: Part ensures Get(m, f) == Get(n, f) {
      if Unstructured(cs, id) {
        KnownUnique(cs, id, f, Get(m, f), Get(n, f));
      } else {
        var k := SomeDecides(cs, id);
        KnownUnique(cs[..k + 1], id, Time, m.time, n.time);
      }
    }
    SameParts(m, n);
  }

  lemma SameParts(m: Sms, n: Sms)
    requires forall f: Part :: Get(m, f) == Get(n, f)
    ensures m == n
  {
    assert Get(m, Time) == Get(n, Time) && Get(m, Body) == Get(n, Body);
    assert Get(m, SenderNumber) == Get(n, SenderNumber) && Get(m, SenderImsi) == Get(n, SenderImsi);
    assert Get(m, ReceiverNumber) == Get(n, ReceiverNumber) && Get(m, ReceiverImsi) == Get(n, ReceiverImsi);
  }

  // ---- The one-pass loop -----------------------------------------------------------------

  /** mergeSMS. */
  function MergeSms(target: Sms, incoming: Sms): Sms {
    Sms(if target.time == [] then incoming.time else target.time,
        if target.text == [] then incoming.text else target.text,
        if target.senderNumber == [] then incoming.senderNumber else target.senderNumber,
        if target.senderImsi == [] then incoming.senderImsi else target.senderImsi,
        if target.receiverNumber == [] then incoming.receiverNumber else target.receiverNumber,
        if target.receiverImsi == [] then incoming.receiverImsi else target.receiverImsi)
  }

  /** applyStructuredSMS. */
  function ApplyStructured(target: Sms, incoming: Sms): Sms {
    if target.time != [] then incoming.(time := target.time) else incoming
  }

  predicate HasStructured(group: seq<Candidate>) { FirstStructured(group) < |group| }

  lemma {:induction false} FirstStructuredGrows(group: seq<Candidate>, c: Candidate)
    ensures HasStructured(group) ==> FirstStructured(group + [c]) == FirstStructured(group)
    ensures !HasStructured(group) ==> FirstStructured(group + [c]) == if c.structured then |group| else |group| + 1
  {
    var a, b := FirstStructured(group), FirstStructured(group + [c]);
    if a < |group| { assert (group + [c])[a].structured; }
    if b < |group| { assert group[b].structured; }
    assert (group + [c])[|group|] == c;
  }

  /** One more candidate changes the message just as the loop changes its entry. */
  lemma MessageGrows(group: seq<Candidate>, c: Candidate)
    requires group != []
    ensures HasStructured(group + [c]) <==> HasStructured(group) || c.structured
    ensures
      Message(group + [c]) ==
      if HasStructured(group) then Message(group)
      else if c.structured then ApplyStructured(Message(group), c.sms)
      else MergeSms(Message(group), c.sms)
  {
    var g := group + [c];
    FirstStructuredGrows(group, c);
    assert g[..|group|] == group;
    if HasStructured(group) {
      var k := FirstStructured(group);
      assert g[..k + 1] == group[..k + 1];
    } else if c.structured {
      assert g[..|group| + 1] == g;
    }
  }

  lemma FirstOfOne(c: Candidate, f: Part)
    ensures First([c], f) == Get(c.sms, f)
  {
    assert First([c][..0], f) == [];
  }

  lemma MessageOfOne(c: Candidate)
    ensures Message([c]) == c.sms && (HasStructured([c]) <==> c.structured)
  {
    FirstOfOne(c, Time);
    FirstOfOne(c, Body);
    FirstOfOne(c, SenderNumber);
    FirstOfOne(c, SenderImsi);
    FirstOfOne(c, ReceiverNumber);
    FirstOfOne(c, ReceiverImsi);
    assert [c][..1] == [c];
    assert FirstStructured([c]) == if c.structured then 0 else 1;
  }

  /** What the loop has built from the candidates `cs`. */
  ghost predicate Merged(cs: seq<Candidate>, out: seq<Sms>, structured: seq<bool>, byIdentity: map<Text, nat>) {
    Indexed(Identities(cs), byIdentity) && Entries(cs, Identities(cs), out, structured)
  }

  /** The map gives the place of each identity. */
  ghost predicate Indexed(ids: seq<Text>, byIdentity: map<Text, nat>) {
    && (forall id :: id in byIdentity <==> id in ids)
    && (forall k :: 0 <= k < |ids| ==> ids[k] in byIdentity && byIdentity[ids[k]] == k)
  }

  ghost predicate Entries(cs: seq<Candidate>, ids: seq<Text>, out: seq<Sms>, structured: seq<bool>) {
    && |out| == |structured| == |ids|
    && (forall k :: 0 <= k < |ids| ==> Entry(cs, ids[k], out[k], structured[k]))
  }

  ghost predicate Entry(cs: seq<Candidate>, id: Text, message: Sms, structured: bool) {
    var group := Group(cs, id);
    group != [] && message == Message(group) && structured == HasStructured(group)
  }

  lemma GroupGrows(cs: seq<Candidate>, c: Candidate, id: Text)
    ensures Group(cs + [c], id) == Group(cs, id) + (if c.identity == id then [c] else [])
    ensures Identities(cs + [c]) == if c.identity in Identities(cs) then Identities(cs) else Identities(cs) + [c.identity]
  {
    assert (cs + [c])[..|cs|] == cs;
  }

  lemma {:induction false} GroupEmpty(cs: seq<Candidate>, id: Text)
    ensures Group(cs, id) == [] <==> id !in Identities(cs)
    decreases |cs|
  {
    if cs != [] { GroupEmpty(cs[..|cs| - 1], id); }
  }

  lemma OtherEntry(cs: seq<Candidate>, c: Candidate, id: Text, message: Sms, structured: bool)
    requires Entry(cs, id, message, structured) && id != c.identity
    ensures Entry(cs + [c], id, message, structured)
  {
    GroupGrows(cs, c, id);
    assert Group(cs, id) + [] == Group(cs, id);
  }

  /** What the loop does to the entry of a known identity. */
  function Absorb(message: Sms, flag: bool, c: Candidate): (Sms, bool) {
    if flag then (message, flag)
    else if c.structured then (ApplyStructured(message, c.sms), true)
    else (MergeSms(message, c.sms), flag)
  }

  lemma SameEntry(cs: seq<Candidate>, c: Candidate, message: Sms, structured: bool)
    requires Entry(cs, c.identity, message, structured)
    ensures Entry(cs + [c], c.identity, Absorb(message, structured, c).0, Absorb(message, structured, c).1)
  {
    GroupGrows(cs, c, c.identity);
    MessageGrows(Group(cs, c.identity), c);
  }

  lemma KnownEntry(cs: seq<Candidate>, c: Candidate, id: Text, message: Sms, structured: bool)
    requires Entry(cs, id, message, structured)
    ensures
      var (message', structured') := if id == c.identity then Absorb(message, structured, c) else (message, structured);
      Entry(cs + [c], id, message', structured')
  {
    if id == c.identity {
      SameEntry(cs, c, message, structured);
    } else {
      OtherEntry(cs, c, id, message, structured);
    }
  }

  lemma IndexOf(ids: seq<Text>, byIdentity: map<Text, nat>, id: Text)
    requires Indexed(ids, byIdentity) && id in byIdentity
    ensures id in ids && byIdentity[id] < |ids|
    ensures forall i :: 0 <= i < |ids| ==> (ids[i] == id <==> i == byIdentity[id])
  {
    var j :| 0 <= j < |ids| && ids[j] == id;
  }

  lemma IndexMore(ids: seq<Text>, byIdentity: map<Text, nat>, id: Text)
    requires Indexed(ids, byIdentity) && id !in byIdentity
    ensures id !in ids && Indexed(ids + [id], byIdentity[id := |ids|])
  {
    var more := ids + [id];
    assert forall x :: x in more <==> x in ids || x == id;
  }

  lemma KnownIdentity(cs: seq<Candidate>, c: Candidate, out: seq<Sms>, structured: seq<bool>, byIdentity: map<Text, nat>,
                      k: nat, message: Sms, flag: bool)
    requires Merged(cs, out, structured, byIdentity) && c.identity in byIdentity && k == byIdentity[c.identity]
    requires k < |out| ==> (message, flag) == Absorb(out[k], structured[k], c)
    ensures k < |out|
    ensures Merged(cs + [c], out[k := message], structured[k := flag], byIdentity)
  {
    var ids := Identities(cs);
    IndexOf(ids, byIdentity, c.identity);
    GroupGrows(cs, c, c.identity);
    KnownEntries(cs, c, ids, out, structured, k);
  }

  lemma KnownEntries(cs: seq<Candidate>, c: Candidate, ids: seq<Text>, out: seq<Sms>, structured: seq<bool>, k: nat)
    requires Entries(cs, ids, out, structured) && k < |ids|
    requires forall i :: 0 <= i < |ids| ==> (ids[i] == c.identity <==> i == k)
    ensures
      var (message, flag) := Absorb(out[k], structured[k], c);
      Entries(cs + [c], ids, out[k := message], structured[k := flag])
  {
    var (message, flag) := Absorb(out[k], structured[k], c);
    var out', structured' := out[k := message], structured[k := flag];
    forall i | 0 <= i < |ids| ensures Entry(cs + [c], ids[i], out'[i], structured'[i]) {
      KnownEntry(cs, c, ids[i], out[i], structured[i]);
    }
  }

  lemma NewIdentity(cs: seq<Candidate>, c: Candidate, out: seq<Sms>, structured: seq<bool>, byIdentity: map<Text, nat>)
    requires Merged(cs, out, structured, byIdentity) && c.identity !in byIdentity
    ensures Merged(cs + [c], out + [c.sms], structured + [c.structured], byIdentity[c.identity := |out|])
  {
    var ids := Identities(cs);
    IndexMore(ids, byIdentity, c.identity);
    GroupGrows(cs, c, c.identity);
    FirstEntry(cs, c);
    NewEntries(cs, c, ids, out, structured);
  }

  lemma FirstEntry(cs: seq<Candidate>, c: Candidate)
    requires c.identity !in Identities(cs)
    ensures Entry(cs + [c], c.identity, c.sms, c.structured)
  {
    GroupGrows(cs, c, c.identity);
    GroupEmpty(cs, c.identity);
    MessageOfOne(c);
    assert [] + [c] == [c];
  }

  lemma NewEntries(cs: seq<Candidate>, c: Candidate, ids: seq<Text>, out: seq<Sms>, structured: seq<bool>)
    requires Entries(cs, ids, out, structured) && c.identity !in ids
    requires Entry(cs + [c], c.identity, c.sms, c.structured)
    ensures Entries(cs + [c], ids + [c.identity], out + [c.sms], structured + [c.structured])
  {
    var ids', out', structured' := ids + [c.identity], out + [c.sms], structured + [c.structured];
    forall i | 0 <= i < |ids'| ensures Entry(cs + [c], ids'[i], out'[i], structured'[i]) {
      if i < |ids| {
        assert ids[i] in ids;
        OtherEntry(cs, c, ids[i], out[i], structured[i]);
      }
    }
  }

  /** The branch of the loop for a known identity. */
  method AbsorbAt(entries: seq<Sms>, flags: seq<bool>, index: nat, c: Candidate)
    returns (out: seq<Sms>, structured: seq<bool>)
    requires index < |entries| == |flags|
    ensures
      var (message, flag) := Absorb(entries[index], flags[index], c);
      out == entries[index := message] && structured == flags[index := flag]
  {
    out, structured := entries, flags;
    if c.structured {
      if !structured[index] {
        out := out[index := ApplyStructured(out[index], c.sms)];
        structured := structured[index := true];
      }
    } else if !structured[index] {
      out := out[index := MergeSms(out[index], c.sms)];
    }
  }

  /** The body of the merging loop. */
  method MergeOne(c: Candidate, entries: seq<Sms>, flags: seq<bool>, index: map<Text, nat>, ghost cs: seq<Candidate>)
    returns (out: seq<Sms>, structured: seq<bool>, byIdentity: map<Text, nat>)
    requires Merged(cs, entries, flags, index)
    ensures Merged(cs + [c], out, structured, byIdentity)
  {
    out, structured, byIdentity := entries, flags, index;
    if c.identity in byIdentity {
      var k := byIdentity[c.identity];
      IndexOf(Identities(cs), byIdentity, c.identity);
      ghost var (message, flag) := Absorb(out[k], structured[k], c);
      KnownIdentity(cs, c, out, structured, byIdentity, k, message, flag);
      out, structured := AbsorbAt(out, structured, k, c);
    } else {
      NewIdentity(cs, c, out, structured, byIdentity);
      byIdentity := byIdentity[c.identity := |out|];
      out := out + [c.sms];
      structured := structured + [c.structured];
    }
  }

  /** The merging loop of ParseSmqueueLog. */
  method MergeCandidates(candidates: seq<Candidate>) returns (out: seq<Sms>)
    ensures
      var sorted := StableSort(candidates);
      && |out| == |Identities(sorted)|
      && forall k :: 0 <= k < |out| ==> MessageOf(sorted, Identities(sorted)[k], out[k])
  {
    var sorted := StableSort(candidates);
    out := [];
    var structured: seq<bool> := [];
    var byIdentity: map<Text, nat> := map[];
    var i := 0;
    while i < |sorted|
      invariant 0 <= i <= |sorted|
      invariant Merged(sorted[..i], out, structured, byIdentity)
    {
      PrefixStep(sorted, i);
      out, structured, byIdentity := MergeOne(sorted[i], out, structured, byIdentity, sorted[..i]);
      i := i + 1;
    }
    assert sorted[..i] == sorted;
    forall k | 0 <= k < |out| ensures MessageOf(sorted, Identities(sorted)[k], out[k]) {
      assert Entry(sorted, Identities(sorted)[k], out[k], structured[k]);
      MessageMeans(sorted, Identities(sorted)[k]);
    }
  }
}
