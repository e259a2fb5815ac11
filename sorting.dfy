/** Array.prototype.sort with a comparator, on values: `before(a, b)` holds when
    the comparator lets a stand before b (it returns a value <= 0). */
module Sorting {

  ghost predicate Total<T(!new)>(before: (T, T) -> bool)
  {
    forall a, b :: before(a, b) || before(b, a)
  }

  ghost predicate Transitive<T(!new)>(before: (T, T) -> bool)
  {
    forall a, b, c :: before(a, b) && before(b, c) ==> before(a, c)
  }

  /** Every element may stand before its right neighbour. */
  predicate SortedBy<T>(s: seq<T>, before: (T, T) -> bool)
  {
    forall k :: 0 < k < |s| ==> before(s[k - 1], s[k])
  }

  predicate NoDuplicates<T(==)>(s: seq<T>)
  {
    forall i, j :: 0 <= i < j < |s| ==> s[i] != s[j]
  }

  /** Puts x in front of the first element it may stand before. */
  function Insert<T(==,!new)>(x: T, s: seq<T>, before: (T, T) -> bool): (r: seq<T>)
    requires Total(before) && SortedBy(s, before)
    ensures SortedBy(r, before)
    ensures multiset(r) == multiset(s) + multiset{x}
    ensures forall e :: e in r <==> e == x || e in s
    ensures r[0] == x || (s != [] && r[0] == s[0])
    ensures x !in s && NoDuplicates(s) ==> NoDuplicates(r)
  {
    if s == [] || before(x, s[0]) then
      ConsSorted(x, s, before);
      ConsNoDuplicates(x, s);
      [x] + s
    else
      var rest := Insert(x, s[1..], before);
      InsertBehind(x, s, rest, before);
      [s[0]] + rest
  }

  /** Keeping the head of s in front of x inserted into the tail. */
  lemma InsertBehind<T(!new)>(x: T, s: seq<T>, rest: seq<T>, before: (T, T) -> bool)
    requires Total(before) && SortedBy(s, before) && s != [] && !before(x, s[0])
    requires SortedBy(rest, before) && rest != []
    requires multiset(rest) == multiset(s[1..]) + multiset{x}
    requires forall e :: e in rest <==> e == x || e in s[1..]
    requires rest[0] == x || (s[1..] != [] && rest[0] == s[1..][0])
    requires x !in s[1..] && NoDuplicates(s[1..]) ==> NoDuplicates(rest)
    ensures var r := [s[0]] + rest;
      && SortedBy(r, before)
      && multiset(r) == multiset(s) + multiset{x}
      && (forall e :: e in r <==> e == x || e in s)
      && (x !in s && NoDuplicates(s) ==> NoDuplicates(r))
  {
    assert s == [s[0]] + s[1..];
    assert before(s[0], rest[0]);
    ConsSorted(s[0], rest, before);
    ConsNoDuplicates(s[0], rest);
    ConsNoDuplicates(s[0], s[1..]);
  }

  /** A head that may stand before the first element of a sorted tail keeps it sorted. */
  lemma ConsSorted<T>(h: T, t: seq<T>, before: (T, T) -> bool)
    requires SortedBy(t, before) && (t != [] ==> before(h, t[0]))
    ensures SortedBy([h] + t, before)
  {
    var s := [h] + t;
    assert forall k :: 0 < k < |s| ==> s[k] == t[k - 1];
  }

  /** A sequence with a head is repeat-free when its tail is and does not hold the head. */
  lemma ConsNoDuplicates<T>(h: T, t: seq<T>)
    ensures NoDuplicates([h] + t) <==> h !in t && NoDuplicates(t)
  {
    var s := [h] + t;
    assert forall k :: 0 <= k < |t| ==> s[k + 1] == t[k];
    if NoDuplicates(s) {
      forall k | 0 <= k < |t| ensures t[k] != h {
        assert s[0] != s[k + 1];
      }
      forall i, j | 0 <= i < j < |t| ensures t[i] != t[j] {
        assert s[i + 1] != s[j + 1];
      }
    }
  }

  /** The sorted permutation of s (insertion sort). */
  function Sort<T(==,!new)>(s: seq<T>, before: (T, T) -> bool): (r: seq<T>)
    requires Total(before)
    ensures SortedBy(r, before)
    ensures multiset(r) == multiset(s) && |r| == |s|
    ensures forall e :: e in r <==> e in s
    ensures NoDuplicates(s) ==> NoDuplicates(r)
  {
    if s == [] then []
    else
      assert s == [s[0]] + s[1..];
      Insert(s[0], Sort(s[1..], before), before)
  }

  /** With a transitive order, neighbour order gives the order of every pair. */
  lemma {:induction false} SortedByPairwise<T(!new)>(s: seq<T>, before: (T, T) -> bool, i: int, j: int)
    requires Transitive(before) && SortedBy(s, before)
    requires 0 <= i < j < |s|
    ensures before(s[i], s[j])
  {
    if i + 1 < j {
      SortedByPairwise(s, before, i, j - 1);
    }
  }

  /** Array.prototype.reverse, on values. */
  function Reverse<T>(s: seq<T>): (r: seq<T>)
    ensures |r| == |s|
    ensures forall k :: 0 <= k < |s| ==> r[k] == s[|s| - 1 - k]
  {
    if s == [] then [] else Reverse(s[1..]) + [s[0]]
  }
}
