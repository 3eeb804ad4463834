/** Ordering for the `ORDER BY ... LIMIT n` queries.

    `before(a, b)` says that a may be listed ahead of b. The database leaves
    the order of tied rows open; the model fixes one order (insertion sort)
    and the lemmas state only what every admissible order has in common. */
module Sorting {

  /** before relates every two values and is transitive; ties are allowed. */
  ghost predicate TotalPreorder<T(!new)>(before: (T, T) -> bool) {
    (forall a: T, b: T :: before(a, b) || before(b, a))
    && (forall a: T, b: T, c: T :: before(a, b) && before(b, c) ==> before(a, c))
  }

  /** Every element may be listed ahead of every later one. */
  predicate SortedBy<T>(s: seq<T>, before: (T, T) -> bool) {
    forall i, j :: 0 <= i < j < |s| ==> before(s[i], s[j])
  }

  /** Inserts x into a sorted sequence, ahead of the first element it may precede. */
  function InsertBy<T(!new)>(x: T, s: seq<T>, before: (T, T) -> bool): (r: seq<T>)
    requires TotalPreorder(before)
    requires SortedBy(s, before)
    ensures multiset(r) == multiset(s) + multiset{x}
    ensures SortedBy(r, before)
  {
    if s == [] || before(x, s[0]) then
      FirstPrecedes(x, s, before);
      [x] + s
    else
      var rest := InsertBy(x, s[1..], before);
      assert s == [s[0]] + s[1..];
      FirstPrecedes(s[0], rest, before);
      [s[0]] + rest
  }

  /** Putting x ahead of a sorted sequence keeps it sorted when x may precede
      its first element, or every element. */
  lemma FirstPrecedes<T(!new)>(x: T, s: seq<T>, before: (T, T) -> bool)
    requires TotalPreorder(before) && SortedBy(s, before)
    requires s == [] || before(x, s[0]) || forall y :: y in multiset(s) ==> before(x, y)
    ensures SortedBy([x] + s, before)
  {
    var r := [x] + s;
    forall i, j | 0 <= i < j < |r|
      ensures before(r[i], r[j])
    {
      if i == 0 {
        assert r[j] == s[j - 1] && r[j] in multiset(s);
        if s != [] && before(x, s[0]) && j > 1 {
          assert before(s[0], s[j - 1]);
        }
      } else {
        assert r[i] == s[i - 1] && r[j] == s[j - 1];
      }
    }
  }

  /** A sorted permutation of s. */
  function SortBy<T(!new)>(s: seq<T>, before: (T, T) -> bool): (r: seq<T>)
    requires TotalPreorder(before)
    ensures multiset(r) == multiset(s)
    ensures SortedBy(r, before)
  {
    if s == [] then []
    else
      assert s == [s[0]] + s[1..];
      InsertBy(s[0], SortBy(s[1..], before), before)
  }

  /** `LIMIT n`: the first n elements, or all of them when there are fewer. */
  function Take<T>(s: seq<T>, n: nat): (r: seq<T>)
    ensures |r| == if n < |s| then n else |s|
    ensures r == s[..|r|]
  {
    if n < |s| then s[..n] else s
  }

  /** In a sorted sequence, an element left out of the first k may be listed
      after each of those k: cutting a sorted list keeps its front. */
  lemma PrefixDominates<T>(s: seq<T>, before: (T, T) -> bool, k: nat, x: T)
    requires SortedBy(s, before)
    requires k <= |s| && x in s && x !in s[..k]
    ensures forall i :: 0 <= i < k ==> before(s[i], x)
  {
    var j :| 0 <= j < |s| && s[j] == x;
    assert s[..k] + s[k..] == s;
  }

  /** Every copy of a value that a sorted prefix leaves behind comes after
      each row of that prefix. */
  lemma PrefixDominatesCopies<T>(s: seq<T>, before: (T, T) -> bool, k: nat, x: T)
    requires SortedBy(s, before)
    requires k <= |s| && multiset(s[..k])[x] < multiset(s)[x]
    ensures forall i :: 0 <= i < k ==> before(s[i], x)
  {
    assert s == s[..k] + s[k..];
    assert multiset(s) == multiset(s[..k]) + multiset(s[k..]);
    assert x in multiset(s[k..]);
    var j :| 0 <= j < |s| - k && s[k..][j] == x;
    assert s[k + j] == x;
  }

  /** Two positions holding the same value give it multiplicity at least two. */
  lemma TwoPositions<T>(s: seq<T>, i: nat, j: nat)
    requires i < j < |s| && s[i] == s[j]
    ensures multiset(s)[s[i]] >= 2
  {
    assert s == s[..j] + s[j..];
    assert s[..j][i] == s[i];
    assert s[j..][0] == s[i];
  }

  /** No value occurs twice. */
  predicate NoDuplicates<T(==)>(s: seq<T>) {
    forall i, j :: 0 <= i < j < |s| ==> s[i] != s[j]
  }

  lemma {:induction false} NoDuplicatesMultiplicity<T>(s: seq<T>, x: T)
    requires NoDuplicates(s)
    ensures multiset(s)[x] <= 1
  {
    if s != [] {
      assert s == [s[0]] + s[1..];
      NoDuplicatesMultiplicity(s[1..], x);
      if s[0] == x {
        assert x !in s[1..];
      }
    }
  }

  /** A permutation of a sequence without duplicates has none either. */
  lemma NoDuplicatesPermutation<T>(a: seq<T>, b: seq<T>)
    requires multiset(a) == multiset(b) && NoDuplicates(a)
    ensures NoDuplicates(b)
  {
    forall i, j | 0 <= i < j < |b|
      ensures b[i] != b[j]
    {
      if b[i] == b[j] {
        TwoPositions(b, i, j);
        NoDuplicatesMultiplicity(a, b[i]);
      }
    }
  }
}
