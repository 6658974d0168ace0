/** Small vocabulary shared by every model in this project. */
module Common {

  datatype Option<+T> = None | Some(value: T)

  /** One octet of a file, a log line or a short message. */
  type byte = x: int | 0 <= x < 256

  const NL: byte := 10

  function Min(a: int, b: int): int { if a <= b then a else b }

  /** The concatenation of a list of sequences. */
  function Flatten<T>(parts: seq<seq<T>>): seq<T> {
    if parts == [] then [] else Flatten(parts[..|parts| - 1]) + parts[|parts| - 1]
  }

  lemma {:induction false} FlattenConcat<T>(left: seq<seq<T>>, right: seq<seq<T>>)
    ensures Flatten(left + right) == Flatten(left) + Flatten(right)
    decreases |right|
  {
    if right == [] {
      assert left + right == left;
    } else {
      var init := right[..|right| - 1];
      assert (left + right)[..|left + right| - 1] == left + init;
      FlattenConcat(left, init);
    }
  }

  lemma FlattenOne<T>(part: seq<T>)
    ensures Flatten([part]) == part
  {
    var none: seq<seq<T>> := [];
    assert [part][..0] == none;
  }

  lemma FlattenHead<T>(parts: seq<seq<T>>)
    requires parts != []
    ensures Flatten(parts) == parts[0] + Flatten(parts[1..])
  {
    assert parts == [parts[0]] + parts[1..];
    FlattenConcat([parts[0]], parts[1..]);
    FlattenOne(parts[0]);
  }

  lemma SplitLast<T>(s: seq<T>)
    requires s != []
    ensures s == s[..|s| - 1] + [s[|s| - 1]]
  {
  }

  lemma SplitAt<T>(s: seq<T>, n: nat)
    requires n <= |s|
    ensures s == s[..n] + s[n..]
  {
  }

  lemma PrefixStep<T>(s: seq<T>, i: nat)
    requires i < |s|
    ensures s[..i + 1] == s[..i] + [s[i]]
  {
  }

  lemma ConsTail<T>(x: T, s: seq<T>)
    ensures ([x] + s)[0] == x && ([x] + s)[1..] == s
  {
  }

  lemma SliceOfSlice<T>(s: seq<T>, a: nat, e: nat, p: nat, q: nat)
    requires a <= e <= |s| && p <= q <= e - a
    ensures s[a..e][p..q] == s[a + p..a + q]
  {
    var middle := s[a..e];
    var x, y := middle[p..q], s[a + p..a + q];
    forall i | 0 <= i < |x| ensures x[i] == y[i] {
      assert x[i] == middle[p + i] == s[a + p + i];
    }
    assert x == y;
  }

  lemma PrefixOfSlice<T>(s: seq<T>, a: nat, e: nat, q: nat)
    requires a <= e <= |s| && q <= e - a
    ensures s[a..e][..q] == s[a..a + q]
  {
    SliceOfSlice(s, a, e, 0, q);
    assert s[a..e][..q] == s[a..e][0..q];
  }

  lemma SliceOfPrefix<T>(s: seq<T>, t: seq<T>, a: nat, e: nat)
    requires s <= t && a <= e <= |s|
    ensures s[a..e] == t[a..e]
  {
    assert s == t[..|s|];
    SliceOfSlice(t, 0, |s|, a, e);
  }

  lemma Assoc<T>(a: seq<T>, b: seq<T>, c: seq<T>)
    ensures a + (b + c) == a + b + c
  {
  }
}
