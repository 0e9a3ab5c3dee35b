/** What sorting means: a permutation in the order of a key. */
module Sorting {

  ghost predicate SortedBy<T(!new)>(s: seq<T>, key: T -> nat) {
    forall i, j :: 0 <= i < j < |s| ==> key(s[i]) <= key(s[j])
  }

  ghost predicate IsPermutation<T(!new)>(s: seq<T>, t: seq<T>) {
    multiset(s) == multiset(t)
  }

  ghost predicate IsSort<T(!new)>(input: seq<T>, output: seq<T>, key: T -> nat) {
    IsPermutation(input, output) && SortedBy(output, key)
  }

  lemma SameElements<T(!new)>(s: seq<T>, t: seq<T>)
    requires IsPermutation(s, t)
    ensures |s| == |t|
    ensures forall x :: x in s <==> x in t
  {
    assert |multiset(s)| == |s| && |multiset(t)| == |t|;
    forall x
      ensures x in s <==> x in t
    {
      assert x in s <==> x in multiset(s);
      assert x in t <==> x in multiset(t);
    }
  }

  ghost predicate HasKey<T(!new)>(s: seq<T>, key: T -> nat, k: nat) {
    exists j :: 0 <= j < |s| && key(s[j]) == k
  }

  /** A key comes no earlier than its value, since all smaller ones come before it. */
  lemma {:induction false} KeyNotEarly<T(!new)>(s: seq<T>, key: T -> nat, i: nat)
    requires SortedBy(s, key) && i < |s| && key(s[i]) < |s|
    requires forall k: nat :: k < |s| ==> HasKey(s, key, k)
    ensures i >= key(s[i])
    decreases key(s[i])
  {
    var k := key(s[i]);
    if k > 0 {
      assert HasKey(s, key, k - 1);
      var j: nat :| j < |s| && key(s[j]) == k - 1;
      KeyNotEarly(s, key, j);
      assert j < i;
    }
  }

  lemma {:induction false} KeyNotLate<T(!new)>(s: seq<T>, key: T -> nat, i: nat)
    requires SortedBy(s, key) && i < |s| && key(s[i]) < |s|
    requires forall k: nat :: k < |s| ==> HasKey(s, key, k)
    ensures i <= key(s[i])
    decreases |s| - key(s[i])
  {
    var k := key(s[i]);
    if k + 1 < |s| {
      assert HasKey(s, key, k + 1);
      var j: nat :| j < |s| && key(s[j]) == k + 1;
      KeyNotLate(s, key, j);
      assert i < j;
    }
  }

  /** Sorting by keys that are 0, 1, 2, ... puts every element at the position its key names. */
  lemma KeyIsPosition<T(!new)>(s: seq<T>, key: T -> nat, k: nat)
    requires SortedBy(s, key) && k < |s|
    requires forall k: nat :: k < |s| ==> HasKey(s, key, k)
    ensures key(s[k]) == k
  {
    assert HasKey(s, key, k);
    var j: nat :| j < |s| && key(s[j]) == k;
    KeyNotEarly(s, key, j);
    KeyNotLate(s, key, j);
  }
}
