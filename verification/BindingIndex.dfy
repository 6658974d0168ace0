/**
 * Resolving the parties of a short message against today's registry
 * (internal/api/v1.go): a one-to-one index built by counting, and a resolution
 * that only ever fills a missing complement.
 */
module BindingIndex {
  import opened Common
  import opened Strings
  import opened RegistrySnapshot

  datatype Index = Index(byImsi: map<string, string>, byNumber: map<string, string>)

  predicate IsServiceCode(number: string) {
    var code := if number != "" && number[0] == '+' then number[1..] else number;
    code in ["101", "411", "111", "112", "911", "2600", "2602"]
  }

  /** The seven service codes, each with or without a plus sign, and nothing else. */
  lemma ServiceCodeMeans(number: string)
    ensures IsServiceCode(number) <==>
              exists code :: code in {"101", "111", "112", "411", "911", "2600", "2602"} && (number == code || number == "+" + code)
  {
    var codes := {"101", "111", "112", "411", "911", "2600", "2602"};
    if IsServiceCode(number) {
      var code := if number[0] == '+' then number[1..] else number;
      assert code in codes;
      assert number[0] == '+' ==> number == "+" + code;
    }
    if code :| code in codes && (number == code || number == "+" + code) {
      assert code[0] != '+';
      if number == "+" + code { assert number[1..] == code; }
    }
  }

  // ---- What the index means, whatever the order of the subscribers ------------------------

  /** The entry shares neither its identity nor its number with any other entry. */
  ghost predicate OneToOne(bag: multiset<Subscriber>, e: Subscriber) {
    && bag[e] == 1
    && (forall f :: f in bag && f != e ==> f.imsi != e.imsi && f.number != e.number)
  }

  ghost predicate Eligible(bag: multiset<Subscriber>, e: Subscriber) {
    && e.consistent && e.number.Some? && e.number.value != "" && !IsServiceCode(e.number.value)
    && OneToOne(bag, e)
  }

  ghost predicate Binds(bag: multiset<Subscriber>, imsi: string, number: string) {
    Eligible(bag, Subscriber(imsi, Some(number), true))
  }

  predicate Maps(m: map<string, string>, k: string, v: string) { k in m && m[k] == v }

  ghost predicate IsIndex(bag: multiset<Subscriber>, index: Index) {
    && (forall imsi, number :: Maps(index.byImsi, imsi, number) <==> Binds(bag, imsi, number))
    && (forall imsi, number :: Maps(index.byNumber, number, imsi) <==> Binds(bag, imsi, number))
  }

  /** The two maps undo each other, and neither side of a binding is ever a service code. */
  lemma MutuallyInverse(bag: multiset<Subscriber>, index: Index)
    requires IsIndex(bag, index)
    ensures forall imsi :: imsi in index.byImsi ==> Maps(index.byNumber, index.byImsi[imsi], imsi)
    ensures forall number :: number in index.byNumber ==> Maps(index.byImsi, index.byNumber[number], number)
    ensures forall imsi :: imsi in index.byImsi ==> !IsServiceCode(index.byImsi[imsi])
  {
    forall imsi | imsi in index.byImsi
      ensures Maps(index.byNumber, index.byImsi[imsi], imsi) && !IsServiceCode(index.byImsi[imsi])
    {
      assert Maps(index.byImsi, imsi, index.byImsi[imsi]);
    }
    forall number | number in index.byNumber ensures Maps(index.byImsi, index.byNumber[number], number) {
      assert Maps(index.byNumber, number, index.byNumber[number]);
    }
  }

  /** Any order of the subscribers gives the same index. */
  lemma IndexUnique(bag: multiset<Subscriber>, a: Index, b: Index)
    requires IsIndex(bag, a) && IsIndex(bag, b)
    ensures a == b
  {
    forall k, v ensures Maps(a.byImsi, k, v) <==> Maps(b.byImsi, k, v) {
      assert Maps(a.byImsi, k, v) <==> Binds(bag, k, v);
    }
    forall k, v ensures Maps(a.byNumber, k, v) <==> Maps(b.byNumber, k, v) {
      assert Maps(a.byNumber, k, v) <==> Binds(bag, v, k);
    }
    SameMap(a.byImsi, b.byImsi);
    SameMap(a.byNumber, b.byNumber);
  }

  lemma SameMap(a: map<string, string>, b: map<string, string>)
    requires forall k, v :: Maps(a, k, v) <==> Maps(b, k, v)
    ensures a == b
  {
    assert forall k :: k in a ==> Maps(a, k, a[k]);
    assert forall k :: k in b ==> Maps(b, k, b[k]);
  }

  // ---- Counting ---------------------------------------------------------------------------

  /** A Go map of counters: a missing key counts zero. */
  function Tally(counts: map<string, nat>, k: string): nat { if k in counts then counts[k] else 0 }

  function ImsiOf(e: Subscriber): Option<string> { Some(e.imsi) }

  function NumberOf(e: Subscriber): Option<string> { e.number }

  function Occurs(list: seq<Subscriber>, key: Subscriber -> Option<string>, k: string): nat {
    if list == [] then 0
    else Occurs(list[..|list| - 1], key, k) + (if key(list[|list| - 1]) == Some(k) then 1 else 0)
  }

  ghost predicate Counted(list: seq<Subscriber>, key: Subscriber -> Option<string>, counts: map<string, nat>) {
    forall k :: Tally(counts, k) == Occurs(list, key, k)
  }

  lemma OccursStep(list: seq<Subscriber>, i: nat, key: Subscriber -> Option<string>, k: string)
    requires i < |list|
    ensures Occurs(list[..i + 1], key, k) == Occurs(list[..i], key, k) + (if key(list[i]) == Some(k) then 1 else 0)
  {
    assert list[..i + 1][..i] == list[..i];
  }

  lemma CountedStep(list: seq<Subscriber>, i: nat, key: Subscriber -> Option<string>, counts: map<string, nat>)
    requires i < |list| && Counted(list[..i], key, counts)
    ensures Counted(list[..i + 1], key, match key(list[i])
                                        case None => counts
                                        case Some(v) => counts[v := Tally(counts, v) + 1])
  {
    var next := match key(list[i]) case None => counts case Some(v) => counts[v := Tally(counts, v) + 1];
    forall k ensures Tally(next, k) == Occurs(list[..i + 1], key, k) {
      OccursStep(list, i, key, k);
      assert Tally(counts, k) == Occurs(list[..i], key, k);
    }
  }

  lemma {:induction false} OccursBag(list: seq<Subscriber>, key: Subscriber -> Option<string>, e: Subscriber, k: string)
    requires key(e) == Some(k)
    ensures Occurs(list, key, k) >= multiset(list)[e]
    ensures Occurs(list, key, k) == multiset(list)[e] <==>
            (forall f :: f in multiset(list) && f != e ==> key(f) != Some(k))
  {
    if list != [] {
      var init, last := list[..|list| - 1], list[|list| - 1];
      assert list == init + [last];
      OccursBag(init, key, e, k);
      assert multiset(list) == multiset(init) + multiset{last};
    }
  }

  lemma CountsMeanOneToOne(list: seq<Subscriber>, e: Subscriber)
    requires e in list && e.number.Some?
    ensures Occurs(list, ImsiOf, e.imsi) == 1 && Occurs(list, NumberOf, e.number.value) == 1
            <==> OneToOne(multiset(list), e)
  {
    assert multiset(list)[e] >= 1;
    OccursBag(list, ImsiOf, e, e.imsi);
    OccursBag(list, NumberOf, e, e.number.value);
  }

  method CountEntries(list: seq<Subscriber>) returns (imsis: map<string, nat>, numbers: map<string, nat>)
    ensures Counted(list, ImsiOf, imsis) && Counted(list, NumberOf, numbers)
  {
    imsis, numbers := map[], map[];
    var i := 0;
    while i < |list|
      invariant 0 <= i <= |list|
      invariant Counted(list[..i], ImsiOf, imsis) && Counted(list[..i], NumberOf, numbers)
    {
      var e := list[i];
      CountedStep(list, i, ImsiOf, imsis);
      CountedStep(list, i, NumberOf, numbers);
      imsis := imsis[e.imsi := Tally(imsis, e.imsi) + 1];
      if e.number.Some? {
        numbers := numbers[e.number.value := Tally(numbers, e.number.value) + 1];
      }
      i := i + 1;
    }
    assert list[..i] == list;
  }

  // ---- Building the index -------------------------------------------------------------------

  /** The bindings of the entries seen so far. */
  ghost predicate BoundBy(list: seq<Subscriber>, i: nat, imsi: string, number: string)
    requires i <= |list|
  {
    Subscriber(imsi, Some(number), true) in list[..i] && Binds(multiset(list), imsi, number)
  }

  ghost predicate Partial(list: seq<Subscriber>, i: nat, index: Index)
    requires i <= |list|
  {
    && (forall imsi, number :: Maps(index.byImsi, imsi, number) <==> BoundBy(list, i, imsi, number))
    && (forall imsi, number :: Maps(index.byNumber, number, imsi) <==> BoundBy(list, i, imsi, number))
  }

  lemma PartialSkip(list: seq<Subscriber>, i: nat, index: Index)
    requires i < |list| && Partial(list, i, index) && !Eligible(multiset(list), list[i])
    ensures Partial(list, i + 1, index)
  {
    forall imsi, number ensures BoundBy(list, i + 1, imsi, number) <==> BoundBy(list, i, imsi, number) {
      assert list[..i + 1] == list[..i] + [list[i]];
    }
  }

  lemma PartialAdd(list: seq<Subscriber>, i: nat, index: Index)
    requires i < |list| && Partial(list, i, index) && Eligible(multiset(list), list[i])
    ensures Partial(list, i + 1, Index(index.byImsi[list[i].imsi := list[i].number.value],
                                       index.byNumber[list[i].number.value := list[i].imsi]))
  {
    var e := list[i];
    var next := Index(index.byImsi[e.imsi := e.number.value], index.byNumber[e.number.value := e.imsi]);
    assert list[..i + 1] == list[..i] + [e];
    forall imsi, number
      ensures Maps(next.byImsi, imsi, number) <==> BoundBy(list, i + 1, imsi, number)
      ensures Maps(next.byNumber, number, imsi) <==> BoundBy(list, i + 1, imsi, number)
    {
      var f := Subscriber(imsi, Some(number), true);
      assert f in list[..i] ==> f in multiset(list) by {
        assert list == list[..i] + list[i..];
      }
      assert Maps(index.byImsi, imsi, number) <==> BoundBy(list, i, imsi, number);
      assert Maps(index.byNumber, number, imsi) <==> BoundBy(list, i, imsi, number);
    }
  }

  /** newSMSBindingIndex. */
  method NewBindingIndex(registered: seq<Subscriber>) returns (index: Index)
    ensures IsIndex(multiset(registered), index)
  {
    var imsis, numbers := CountEntries(registered);
    index := Index(map[], map[]);
    var i := 0;
    while i < |registered|
      invariant 0 <= i <= |registered| && Partial(registered, i, index)
    {
      var e := registered[i];
      if e.number.Some? {
        assert Tally(imsis, e.imsi) == Occurs(registered, ImsiOf, e.imsi);
        assert Tally(numbers, e.number.value) == Occurs(registered, NumberOf, e.number.value);
        CountsMeanOneToOne(registered, e);
      }
      if !e.consistent || e.number.None? || e.number.value == "" || Tally(imsis, e.imsi) != 1
         || Tally(numbers, e.number.value) != 1 || IsServiceCode(e.number.value) {
        PartialSkip(registered, i, index);
      } else {
        PartialAdd(registered, i, index);
        index := Index(index.byImsi[e.imsi := e.number.value], index.byNumber[e.number.value := e.imsi]);
      }
      i := i + 1;
    }
    Complete(registered, index);
  }

  lemma Complete(list: seq<Subscriber>, index: Index)
    requires Partial(list, |list|, index)
    ensures IsIndex(multiset(list), index)
  {
    assert list[..|list|] == list;
    forall imsi, number ensures BoundBy(list, |list|, imsi, number) <==> Binds(multiset(list), imsi, number) {
      var e := Subscriber(imsi, Some(number), true);
      assert Binds(multiset(list), imsi, number) ==> multiset(list)[e] == 1;
    }
  }

  // ---- Resolution -----------------------------------------------------------------------------

  const UNKNOWN: string := "unknown"
  const LOG_OBSERVATION: string := "log_observation"
  const CURRENT_BINDING: string := "current_subscriber_binding"

  datatype Party = Party(number: string, imsi: string)

  /** The registry binds the observed identity, and no number was observed. */
  ghost predicate FillsNumber(p: Party, bag: multiset<Subscriber>) {
    p.number == "" && p.imsi != "" && exists n :: Binds(bag, p.imsi, n)
  }

  /** The registry binds the observed number, and no identity was observed. */
  ghost predicate FillsImsi(p: Party, bag: multiset<Subscriber>) {
    p.imsi == "" && p.number != "" && exists i :: Binds(bag, i, p.number)
  }

  /** Only a missing complement is filled, with the other end of a registry binding. */
  ghost predicate Resolved(observed: Party, shown: Party, bag: multiset<Subscriber>) {
    if FillsNumber(observed, bag) then shown.imsi == observed.imsi && Binds(bag, shown.imsi, shown.number)
    else if FillsImsi(observed, bag) then shown.number == observed.number && Binds(bag, shown.imsi, shown.number)
    else shown == observed
  }

  /** Where one field of the answer came from. */
  ghost predicate Labelled(tag: string, observed: string, filled: bool) {
    tag == if filled then CURRENT_BINDING else if observed != "" then LOG_OBSERVATION else UNKNOWN
  }

  ghost predicate PartyLabelled(r: map<string, string>, prefix: string, p: Party, bag: multiset<Subscriber>) {
    && NumberKey(prefix) in r && Labelled(r[NumberKey(prefix)], p.number, FillsNumber(p, bag))
    && ImsiKey(prefix) in r && Labelled(r[ImsiKey(prefix)], p.imsi, FillsImsi(p, bag))
  }

  /** An observed value is never changed, and is never labelled as anything but an observation. */
  lemma ObservedWins(p: Party, q: Party, r: map<string, string>, prefix: string, bag: multiset<Subscriber>)
    requires Resolved(p, q, bag) && PartyLabelled(r, prefix, p, bag)
    ensures p.number != "" ==> q.number == p.number && r[NumberKey(prefix)] == LOG_OBSERVATION
    ensures p.imsi != "" ==> q.imsi == p.imsi && r[ImsiKey(prefix)] == LOG_OBSERVATION
    ensures q.number == p.number || q.imsi == p.imsi
    ensures r[NumberKey(prefix)] != CURRENT_BINDING || r[ImsiKey(prefix)] != CURRENT_BINDING
    ensures q.number != p.number ==> r[NumberKey(prefix)] == CURRENT_BINDING
    ensures r[NumberKey(prefix)] == CURRENT_BINDING ==> q.number != p.number
    ensures q.imsi != p.imsi ==> r[ImsiKey(prefix)] == CURRENT_BINDING
    ensures r[ImsiKey(prefix)] == CURRENT_BINDING && Named(bag) ==> q.imsi != p.imsi
  {
    assert LOG_OBSERVATION != CURRENT_BINDING by { assert |LOG_OBSERVATION| != |CURRENT_BINDING|; }
    assert UNKNOWN != CURRENT_BINDING by { assert |UNKNOWN| != |CURRENT_BINDING|; }
  }

  /** No entry has an empty identity; a listing refuses such rows. */
  ghost predicate Named(bag: multiset<Subscriber>) { forall e :: e in bag ==> e.imsi != "" }

  lemma ListedAreNamed(rows: multiset<Row>, items: seq<Subscriber>)
    requires Admissible(rows) && IsListing(rows, items)
    ensures Named(multiset(items))
  {
    forall e | e in multiset(items) ensures e.imsi != "" {
      var i :| 0 <= i < |items| && items[i] == e;
      assert Imsis(items)[i] in Elements(Imsis(items));
      var c :| Sip(e.imsi, c) in rows;
      assert WellFormed(Sip(e.imsi, c)) && Sip(e.imsi, c)[1] == e.imsi;
    }
  }

  function NumberKey(prefix: string): string { prefix + "_number" }

  function ImsiKey(prefix: string): string { prefix + "_imsi" }

  function Observed(v: string): string { if v != "" then LOG_OBSERVATION else UNKNOWN }

  predicate PartyObserved(r: map<string, string>, prefix: string, p: Party) {
    Maps(r, NumberKey(prefix), Observed(p.number)) && Maps(r, ImsiKey(prefix), Observed(p.imsi))
  }

  /** resolveSMSParty, which sees and writes one party and its two labels. */
  method ResolveParty(p: Party, resolution: map<string, string>, prefix: string, index: Index,
                      ghost bag: multiset<Subscriber>)
    returns (q: Party, r: map<string, string>)
    requires IsIndex(bag, index) && PartyObserved(resolution, prefix, p)
    ensures Resolved(p, q, bag) && PartyLabelled(r, prefix, p, bag)
    ensures r.Keys == resolution.Keys
    ensures forall k :: k in r && k != NumberKey(prefix) && k != ImsiKey(prefix) ==> r[k] == resolution[k]
  {
    DistinctKeys(prefix);
    q, r := p, resolution;
    if p.number == "" && p.imsi != "" {
      ImsiSide(p.imsi, index, bag);
      if p.imsi in index.byImsi {
        q := q.(number := index.byImsi[p.imsi]);
        r := r[prefix + "_number" := CURRENT_BINDING];
      }
      return;
    }
    if p.imsi == "" && p.number != "" {
      NumberSide(p.number, index, bag);
      if !IsServiceCode(p.number) && p.number in index.byNumber {
        q := q.(imsi := index.byNumber[p.number]);
        r := r[prefix + "_imsi" := CURRENT_BINDING];
      }
    }
  }

  lemma DistinctKeys(prefix: string)
    ensures NumberKey(prefix) != ImsiKey(prefix)
  {
    assert |NumberKey(prefix)| != |ImsiKey(prefix)|;
  }

  lemma ImsiSide(imsi: string, index: Index, bag: multiset<Subscriber>)
    requires IsIndex(bag, index)
    ensures imsi in index.byImsi <==> exists n :: Binds(bag, imsi, n)
    ensures imsi in index.byImsi ==> Binds(bag, imsi, index.byImsi[imsi])
  {
    if imsi in index.byImsi {
      assert Maps(index.byImsi, imsi, index.byImsi[imsi]);
    } else {
      forall n ensures !Binds(bag, imsi, n) {
        assert !Maps(index.byImsi, imsi, n);
      }
    }
  }

  /** A bound number is indexed and is not a service code. */
  lemma NumberSide(number: string, index: Index, bag: multiset<Subscriber>)
    requires IsIndex(bag, index)
    ensures number in index.byNumber <==> exists i :: Binds(bag, i, number)
    ensures number in index.byNumber ==> !IsServiceCode(number) && Binds(bag, index.byNumber[number], number)
  {
    if number in index.byNumber {
      assert Maps(index.byNumber, number, index.byNumber[number]);
    } else {
      forall i ensures !Binds(bag, i, number) {
        assert !Maps(index.byNumber, number, i);
      }
    }
  }

  const SENDER: string := "sender"
  const RECEIVER: string := "receiver"

  class Message {
    var sender: Party
    var receiver: Party

    constructor (sender: Party, receiver: Party)
      ensures this.sender == sender && this.receiver == receiver
    {
      this.sender, this.receiver := sender, receiver;
    }

    /** smsIdentityResolution. */
    method Resolve(index: Index, ghost bag: multiset<Subscriber>) returns (r: map<string, string>)
      requires IsIndex(bag, index)
      modifies this
      ensures Resolved(old(sender), sender, bag) && Resolved(old(receiver), receiver, bag)
      ensures PartyLabelled(r, SENDER, old(sender), bag) && PartyLabelled(r, RECEIVER, old(receiver), bag)
      ensures r.Keys == Labels()
    {
      r := ObservedLabels(sender, receiver);
      sender, r := ResolveParty(sender, r, SENDER, index, bag);
      KeysApart();
      ghost var half := r;
      receiver, r := ResolveParty(receiver, r, RECEIVER, index, bag);
      assert r[NumberKey(SENDER)] == half[NumberKey(SENDER)] && r[ImsiKey(SENDER)] == half[ImsiKey(SENDER)];
    }
  }

  /** The names of the four labels and of their values. */
  lemma LabelNames()
    ensures Labels() == {"sender_number", "sender_imsi", "receiver_number", "receiver_imsi"}
    ensures NumberKey(SENDER) == "sender_number" && ImsiKey(SENDER) == "sender_imsi"
    ensures NumberKey(RECEIVER) == "receiver_number" && ImsiKey(RECEIVER) == "receiver_imsi"
    ensures UNKNOWN == "unknown" && LOG_OBSERVATION == "log_observation" && CURRENT_BINDING == "current_subscriber_binding"
  {
    assert NumberKey(SENDER) == "sender_number" && ImsiKey(SENDER) == "sender_imsi";
    assert NumberKey(RECEIVER) == "receiver_number" && ImsiKey(RECEIVER) == "receiver_imsi";
  }

  function Labels(): set<string> {
    {NumberKey(SENDER), ImsiKey(SENDER), NumberKey(RECEIVER), ImsiKey(RECEIVER)}
  }

  /** The labels before the registry is consulted. */
  method ObservedLabels(sender: Party, receiver: Party) returns (r: map<string, string>)
    ensures PartyObserved(r, SENDER, sender) && PartyObserved(r, RECEIVER, receiver) && r.Keys == Labels()
  {
    var sn, si, rn, ri := NumberKey(SENDER), ImsiKey(SENDER), NumberKey(RECEIVER), ImsiKey(RECEIVER);
    KeysApart();
    r := map[sn := UNKNOWN, si := UNKNOWN, rn := UNKNOWN, ri := UNKNOWN];
    if sender.number != "" { r := r[sn := LOG_OBSERVATION]; }
    if sender.imsi != "" { r := r[si := LOG_OBSERVATION]; }
    if receiver.number != "" { r := r[rn := LOG_OBSERVATION]; }
    if receiver.imsi != "" { r := r[ri := LOG_OBSERVATION]; }
  }

  lemma KeysApart()
    ensures NumberKey(SENDER) != ImsiKey(SENDER) && NumberKey(RECEIVER) != ImsiKey(RECEIVER)
    ensures NumberKey(SENDER) != NumberKey(RECEIVER) && ImsiKey(SENDER) != ImsiKey(RECEIVER)
    ensures NumberKey(SENDER) != ImsiKey(RECEIVER) && ImsiKey(SENDER) != NumberKey(RECEIVER)
  {
    DistinctKeys(SENDER);
    DistinctKeys(RECEIVER);
    assert NumberKey(SENDER)[0] == 's' && ImsiKey(SENDER)[0] == 's';
    assert NumberKey(RECEIVER)[0] == 'r' && ImsiKey(RECEIVER)[0] == 'r';
  }
}
