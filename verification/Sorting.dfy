/** What the library sort does to a whole array: a permutation, ascending by a key. */
module Sorting {

  ghost predicate Ascending<T(!new)>(s: seq<T>, key: T -> int) {
    forall i, j :: 0 <= i < j < |s| ==> key(s[i]) <= key(s[j])
  }

  function Swap<T>(s: seq<T>, i: nat, j: nat): seq<T>
    requires i < |s| && j < |s|
  {
    s[i := s[j]][j := s[i]]
  }

  lemma SwapKeepsMultiset<T>(s: seq<T>, i: nat, j: nat)
    requires i < |s| && j < |s|
    ensures multiset(Swap(s, i, j)) == multiset(s)
  {
  }

  method SwapInArray<T>(a: array<T>, i: nat, j: nat)
    requires i < a.Length && j < a.Length
    modifies a
    ensures a[..] == Swap(old(a[..]), i, j)
  {
    a[i], a[j] := a[j], a[i];
  }

  /** Sorted up to `i`, except that the element at `j` may be too small for its place. */
  ghost predicate AscendingBut<T(!new)>(s: seq<T>, i: nat, j: nat, key: T -> int)
    requires j <= i < |s|
  {
    forall p, q :: 0 <= p < q <= i && q != j ==> key(s[p]) <= key(s[q])
  }

  lemma SiftOne<T(!new)>(s: seq<T>, i: nat, j: nat, key: T -> int)
    requires 0 < j <= i < |s| && AscendingBut(s, i, j, key) && key(s[j - 1]) > key(s[j])
    ensures AscendingBut(Swap(s, j - 1, j), i, j - 1, key)
  {
  }

  /** Sift element `i` down into the sorted stretch before it. */
  method Insert<T(!new)>(a: array<T>, i: nat, key: T -> int)
    requires i < a.Length && Ascending(a[..i], key)
    modifies a
    ensures Ascending(a[..i + 1], key)
    ensures multiset(a[..]) == multiset(old(a[..]))
  {
    hide Swap;
    var j := i;
    assert a[..][..i] == a[..i];
    SortedPrefix(a[..], i, key);
    while j > 0 && key(a[j - 1]) > key(a[j])
      invariant 0 <= j <= i
      invariant multiset(a[..]) == multiset(old(a[..]))
      invariant AscendingBut(a[..], i, j, key)
    {
      SwapKeepsMultiset(a[..], j - 1, j);
      SiftOne(a[..], i, j, key);
      SwapInArray(a, j - 1, j);
      j := j - 1;
    }
    SiftedDown(a[..], i, j, key);
    assert a[..][..i + 1] == a[..i + 1];
  }

  lemma SortedPrefix<T(!new)>(s: seq<T>, i: nat, key: T -> int)
    requires i < |s| && Ascending(s[..i], key)
    ensures AscendingBut(s, i, i, key)
  {
    forall p, q | 0 <= p < q < i
      ensures key(s[p]) <= key(s[q])
    {
      assert s[..i][p] == s[p] && s[..i][q] == s[q];
    }
  }

  lemma SiftedDown<T(!new)>(s: seq<T>, i: nat, j: nat, key: T -> int)
    requires j <= i < |s| && AscendingBut(s, i, j, key) && (j > 0 ==> key(s[j - 1]) <= key(s[j]))
    ensures Ascending(s[..i + 1], key)
  {
    forall p, q | 0 <= p < q < i + 1
      ensures key(s[p]) <= key(s[q])
    {
      if q == j && p < j - 1 {
        assert key(s[p]) <= key(s[j - 1]);
      }
    }
  }

  method Sort<T(!new)>(a: array<T>, key: T -> int)
    modifies a
    ensures Ascending(a[..], key)
    ensures multiset(a[..]) == multiset(old(a[..]))
  {
    var i := 0;
    while i < a.Length
      invariant i <= a.Length && Ascending(a[..i], key)
      invariant multiset(a[..]) == multiset(old(a[..]))
    {
      Insert(a, i, key);
      i := i + 1;
    }
    assert a[..a.Length] == a[..];
  }

  /** Taking one element out of a sequence. */
  function Without<T>(s: seq<T>, i: nat): seq<T>
    requires i < |s|
  {
    s[..i] + s[i + 1..]
  }

  lemma WithoutMultiset<T>(s: seq<T>, i: nat)
    requires i < |s|
    ensures multiset(s) == multiset(Without(s, i)) + multiset{s[i]}
  {
    assert s == s[..i] + ([s[i]] + s[i + 1..]);
  }

  lemma HeadMultiset<T>(s: seq<T>)
    requires s != []
    ensures multiset(s) == multiset{s[0]} + multiset(s[1..])
  {
    assert s == [s[0]] + s[1..];
  }

  /** An element of one permutation has a place in the other. */
  lemma PlaceIn<T>(s: seq<T>, x: T) returns (i: nat)
    requires x in multiset(s)
    ensures i < |s| && s[i] == x
  {
    i :| 0 <= i < |s| && s[i] == x;
  }
}
