/** Phase 1 matching of a whole table: the slicing thread cuts the sorted stream into groups, adjacent
    groups are matched, and what comes out is the relation on the whole stream. */
module Slicing {
  import opened Powers
  import opened PositionWidth
  import opened Sequences
  import opened Wrappers
  import opened Matching

  datatype Entry = Entry(y: nat, meta: nat)

  /** `match_t`; the distance is a 16-bit word. */
  datatype Match = Match(left: Entry, right: Entry, pos: nat, off: nat)

  /** `match_input_t`: the positions and entries of two buckets; a bucket may be a null pointer. */
  datatype Pair = Pair(offset: nat, left: Option<seq<Entry>>, right: Option<seq<Entry>>)

  function Group(e: Entry): nat {
    e.y / kBC
  }

  function Ys(entries: seq<Entry>): (r: seq<nat>)
    ensures |r| == |entries|
  {
    seq(|entries|, i requires 0 <= i < |entries| => entries[i].y)
  }

  predicate Sorted(all: seq<Entry>) {
    forall p, q :: 0 <= p < q < |all| ==> all[p].y <= all[q].y
  }

  predicate GroupsSorted(all: seq<Entry>) {
    forall p, q :: 0 <= p < q < |all| ==> Group(all[p]) <= Group(all[q])
  }

  lemma SortedGroups(all: seq<Entry>)
    requires Sorted(all)
    ensures GroupsSorted(all)
  {
    forall p, q | 0 <= p < q < |all|
      ensures Group(all[p]) <= Group(all[q])
    {
      QuotientMonotone(all[p].y, all[q].y, kBC);
    }
  }

  lemma QuotientMonotone(a: nat, b: nat, d: nat)
    requires a <= b && d > 0
    ensures a / d <= b / d
  {
    DivMod(a, d);
    DivMod(b, d);
    assert (b / d + 1) * d == (b / d) * d + d;
    if a / d > b / d {
      MulMonotone(b / d + 1, a / d, d);
    }
  }

  /** A match of the whole stream, as phase 1 is to report it. */
  ghost predicate IsMatch(all: seq<Entry>, m: Match) {
    && m.pos + m.off < |all| && m.pos < MAX_POSITION
    && Related(all[m.pos].y, all[m.pos + m.off].y)
    && m.left == all[m.pos] && m.right == all[m.pos + m.off]
  }

  /** The matches whose right entry lies below n, each once. */
  ghost predicate MatchesUpTo(all: seq<Entry>, out: seq<Match>, n: nat) {
    NoRepeats(out) && forall m :: m in out <==> IsMatch(all, m) && m.pos + m.off < n
  }

  /** Every pair with more matches than the index arrays hold has one of them from n on. */
  ghost predicate NoneFull(all: seq<Entry>, n: nat) {
    forall p: Pair, group: nat, found: seq<IndexPair> :: IsFull(all, p, group, found) ==> SomeFrom(p, found, n)
  }

  ghost predicate IsFull(all: seq<Entry>, p: Pair, group: nat, found: seq<IndexPair>) {
    IsPair(all, p, group) && AllFound(Ys(p.left.value), Ys(p.right.value), found) && |found| > kBC
  }

  ghost predicate SomeFrom(p: Pair, found: seq<IndexPair>, n: nat) {
    p.left.Some? && exists k :: 0 <= k < |found| && RightStart(p) + found[k].right >= n
  }

  // ----- what fits 16-bit words

  /** Where the group of entry i starts. */
  function GroupStart(all: seq<Entry>, i: nat): (s: nat)
    requires i < |all|
    ensures s <= i
  {
    if i > 0 && Group(all[i - 1]) == Group(all[i]) then GroupStart(all, i - 1) else i
  }

  lemma {:induction false} StartOfGroup(all: seq<Entry>, from: nat, to: nat, group: nat, i: nat)
    requires IsGroup(all, from, to, group) && from <= i < to
    ensures GroupStart(all, i) == from
  {
    if i > from {
      StartOfGroup(all, from, to, group, i - 1);
    } else if i > 0 {
      assert Group(all[i - 1]) < group;
    }
  }

  /** The pair (a, b) can be told in 16-bit words: a by its place in its group, b by its distance from a. */
  predicate Near(all: seq<Entry>, a: nat, b: nat)
    requires a < |all|
  {
    a - GroupStart(all, a) < 0x1_0000 && b - a < 0x1_0000
  }

  /** Every related pair can. */
  ghost predicate WordsFit(all: seq<Entry>) {
    forall a: nat, b: nat :: a < |all| && b < |all| && Related(all[a].y, all[b].y) ==> Near(all, a, b)
  }

  /** What any match looks like, right or wrong. */
  ghost predicate AllNear(all: seq<Entry>, out: seq<Match>) {
    forall m :: m in out ==> m.pos < |all| && Near(all, m.pos, m.pos + m.off)
  }

  /** The matches after the pairs up to n: near, and right if all words fit; then no pair up to n has too many. */
  ghost predicate Matched(all: seq<Entry>, out: seq<Match>, n: nat) {
    AllNear(all, out) && (WordsFit(all) ==> MatchesUpTo(all, out, n) && NoneFull(all, n))
  }

  // ----- slicing

  /** Where the right bucket of a pair starts and ends in the stream. */
  function RightStart(p: Pair): nat
    requires p.left.Some?
  {
    p.offset + |p.left.value|
  }

  function RightEnd(p: Pair): nat
    requires p.left.Some? && p.right.Some?
  {
    RightStart(p) + |p.right.value|
  }

  /** All entries of [from, to) are of one group, and nothing before is. */
  ghost predicate IsGroup(all: seq<Entry>, from: nat, to: nat, group: nat) {
    && from < to <= |all|
    && (forall p :: from <= p < to ==> Group(all[p]) == group)
    && forall p :: 0 <= p < from ==> Group(all[p]) < group
  }

  ghost predicate IsPair(all: seq<Entry>, p: Pair, group: nat) {
    && p.left.Some? && p.right.Some? && RightEnd(p) <= |all|
    && p.left.value == all[p.offset..RightStart(p)] && p.right.value == all[RightStart(p)..RightEnd(p)]
    && IsGroup(all, p.offset, RightStart(p), group) && IsGroup(all, RightStart(p), RightEnd(p), group + 1)
  }

  ghost predicate NoneRelated(all: seq<Entry>, from: nat, to: nat) {
    forall i, j :: 0 <= i < |all| && from <= j < to && j < |all| ==> !Related(all[i].y, all[j].y)
  }

  /** The pairs hold, in order, every related pair of entries whose right entry lies in [from, to). */
  ghost predicate Sliced(all: seq<Entry>, pairs: seq<Pair>, from: nat, to: nat) {
    if pairs == [] then from <= to && NoneRelated(all, from, to)
    else
      var p := pairs[|pairs| - 1];
      && (exists group :: IsPair(all, p, group))
      && from <= RightStart(p) && RightEnd(p) <= to
      && Sliced(all, pairs[..|pairs| - 1], from, RightStart(p))
      && NoneRelated(all, RightEnd(p), to)
  }

  /** The group that ends at n, with what stands for it when there is none. */
  ghost predicate GroupEnding(all: seq<Entry>, n: nat, index: nat, offset: nat, bucket: Option<seq<Entry>>) {
    if n == 0 then index == offset == 0 && bucket == None
    else IsGroup(all, offset, n, index) && bucket == Some(all[offset..n])
  }

  lemma LastGroupGrows(all: seq<Entry>, n: nat, index: nat, offset: nat, bucket: Option<seq<Entry>>)
    requires n < |all| && GroupEnding(all, n, index, offset, bucket)
    ensures n == 0 ==> index == offset == 0 && bucket == None
    ensures n > 0 ==> bucket.Some?
    ensures Group(all[n]) < index ==> !GroupsSorted(all)
    ensures Group(all[n]) == index ==>
              GroupEnding(all, n + 1, index, offset, Some((if bucket.None? then [] else bucket.value) + [all[n]]))
  {
    if n > 0 {
      assert Group(all[n - 1]) == index;
      assert all[offset..n] + [all[n]] == all[offset..n + 1];
    } else {
      assert [] + [all[0]] == all[..1];
    }
  }

  lemma LastGroupEnds(all: seq<Entry>, n: nat, index: nat, offset: nat, bucket: Option<seq<Entry>>)
    requires n < |all| && GroupEnding(all, n, index, offset, bucket) && Group(all[n]) > index
    ensures offset + (if bucket.None? then 0 else |bucket.value|) == n
    ensures GroupEnding(all, n + 1, Group(all[n]), n, Some([all[n]]))
  {
    assert all[n..n + 1] == [all[n]];
  }

  /** With the test for adjacent groups passed, the last two buckets are a pair; with it failed, no
      entry of the last group has a partner. */
  lemma SlicedNext(all: seq<Entry>, n: nat, pairs: seq<Pair>, from: nat, index0: nat, offset0: nat,
                   bucket0: Option<seq<Entry>>, index1: nat, offset1: nat, bucket1: Option<seq<Entry>>)
    requires n <= |all| && GroupsSorted(all) && Sliced(all, pairs, from, offset0)
    requires GroupEnding(all, n, index0, offset0, bucket0)
    requires GroupEnding(all, if n == 0 then 0 else offset0, index1, offset1, bucket1)
    requires !(index1 + 1 == index0 && bucket1.None?)
    ensures index1 + 1 == index0 ==> Sliced(all, pairs + [Pair(offset1, bucket1, bucket0)], from, n)
    ensures index1 + 1 != index0 ==> Sliced(all, pairs, from, n)
  {
    if index1 + 1 == index0 {
      var p := Pair(offset1, bucket1, bucket0);
      assert IsPair(all, p, index1);
      assert (pairs + [p])[..|pairs + [p]| - 1] == pairs;
    } else {
      if n > 0 {
        NoPartner(all, n, index0, offset0, index1, offset1);
      }
      SlicedFurther(all, pairs, from, offset0, n);
    }
  }

  lemma NoPartner(all: seq<Entry>, n: nat, index0: nat, offset0: nat, index1: nat, offset1: nat)
    requires n <= |all| && GroupsSorted(all) && IsGroup(all, offset0, n, index0)
    requires if offset0 == 0 then index1 == 0 else IsGroup(all, offset1, offset0, index1)
    requires index1 + 1 != index0
    ensures NoneRelated(all, offset0, n)
  {
    hide Group, Related;
    if offset0 > 0 {
      assert Group(all[offset1]) == index1;
    }
    forall i, j | 0 <= i < |all| && offset0 <= j < n
      ensures !Related(all[i].y, all[j].y)
    {
      PartnerGroup(all[i], all[j]);
      if i >= offset0 {
        assert Group(all[i]) >= Group(all[offset0]);
      } else if i >= offset1 {
        assert Group(all[i]) == index1;
      } else {
        assert Group(all[i]) < index1;
      }
    }
  }

  lemma PartnerGroup(l: Entry, r: Entry)
    ensures Related(l.y, r.y) ==> Group(l) + 1 == Group(r)
  {
  }

  lemma SlicedFurther(all: seq<Entry>, pairs: seq<Pair>, from: nat, n: nat, n': nat)
    requires Sliced(all, pairs, from, n) && n <= n' && NoneRelated(all, n, n')
    ensures Sliced(all, pairs, from, n')
  {
  }

  /** The first pair has a null bucket. */
  predicate HasNull(pairs: seq<Pair>) {
    pairs != [] && pairs[0].left.None?
  }

  /** The slicing thread's variables. */
  class Slicer {
    var index0: nat
    var index1: nat
    var offset0: nat
    var offset1: nat
    var bucket0: Option<seq<Entry>>
    var bucket1: Option<seq<Entry>>

    constructor ()
      ensures index0 == index1 == offset0 == offset1 == 0 && bucket0 == bucket1 == None
    {
      index0, index1, offset0, offset1, bucket0, bucket1 := 0, 0, 0, 0, None, None;
    }

    /** The last two groups among the first n entries. */
    ghost predicate Valid(all: seq<Entry>, n: nat)
      reads this
    {
      && n <= |all|
      && GroupEnding(all, n, index0, offset0, bucket0)
      && GroupEnding(all, if n == 0 then 0 else offset0, index1, offset1, bucket1)
    }

    /** The test for adjacent groups holds by mistake: the initial index 0 stands for a group that
        was never seen. */
    predicate NullBucket()
      reads this
    {
      index1 + 1 == index0 && bucket1.None?
    }

    function CurrentPair(): Pair
      reads this
    {
      Pair(offset1, bucket1, bucket0)
    }

    /** The loop body of the slicing thread, for the entry at position n. */
    method Take(entry: Entry, out: seq<Pair>, ghost all: seq<Entry>, ghost n: nat, ghost from: nat)
      returns (r: Result<seq<Pair>>)
      requires Valid(all, n) && n < |all| && entry == all[n]
      requires !NullBucket() && !HasNull(out) && GroupsSorted(all) ==> Sliced(all, out, from, offset0)
      requires n == 0 || NullBucket() ==> out == []
      modifies this
      ensures r.Ok? ==> Valid(all, n + 1)
      ensures r.Err? ==> r.error == "input not sorted" && !GroupsSorted(all)
      ensures r.Ok? && !NullBucket() && !HasNull(r.value) && GroupsSorted(all) ==> Sliced(all, r.value, from, offset0)
      ensures r.Ok? && NullBucket() ==> r.value == [] && offset0 == old(offset0)
      ensures r.Ok? && (old(NullBucket()) || HasNull(out)) ==> NullBucket() || HasNull(r.value)
      ensures r.Ok? && n == 0 ==> !HasNull(r.value) && (NullBucket() <==> Group(entry) == 1)
      ensures r.Ok? && n > 0 && !old(NullBucket()) ==> !NullBucket() && (HasNull(r.value) ==> HasNull(out))
    {
      hide GroupEnding, Group, Sliced;
      var pairs, index := out, Group(entry);
      LastGroupGrows(all, n, index0, offset0, bucket0);
      if index < index0 {
        return Err("input not sorted");
      }
      if index > index0 {
        if index1 + 1 == index0 {
          pairs := pairs + [CurrentPair()];
        }
        if !NullBucket() && !HasNull(out) && GroupsSorted(all) {
          SlicedNext(all, n, out, from, index0, offset0, bucket0, index1, offset1, bucket1);
        }
        LastGroupEnds(all, n, index0, offset0, bucket0);
        index1 := index0;
        index0 := index;
        offset1 := offset0;
        if bucket0.Some? {
          offset0 := offset0 + |bucket0.value|;
        }
        bucket1 := bucket0;
        bucket0 := None;
      }
      if bucket0.None? {
        bucket0 := Some([]);
      }
      assert [] + [entry] == [entry];
      bucket0 := Some(bucket0.value + [entry]);
      r := Ok(pairs);
    }
  }

  // ----- the matches of one pair

  function ToMatch(begin: nat, left: seq<Entry>, right: seq<Entry>, i: IndexPair): Match
    requires i.left < |left| && i.right < |right|
  {
    Match(left[i.left], right[i.right], begin + i.left, (i.right + (|left| - i.left)) % WORD16)
  }

  /** The matches of the first n index pairs, without those that overflow. */
  ghost predicate Kept(begin: nat, left: seq<Entry>, right: seq<Entry>, found: seq<IndexPair>, n: nat, m: Match)
    requires n <= |found|
  {
    exists k :: 0 <= k < n && found[k].left < |left| && found[k].right < |right|
                && m == ToMatch(begin, left, right, found[k]) && m.pos < MAX_POSITION
  }

  lemma PairMatch(all: seq<Entry>, p: Pair, group: nat, i: IndexPair)
    requires IsPair(all, p, group) && i.left < |p.left.value| && i.right < |p.right.value|
    requires i.right + |p.left.value| - i.left < WORD16
    ensures var m := ToMatch(p.offset, p.left.value, p.right.value, i);
            && m.pos == p.offset + i.left && m.pos + m.off == RightStart(p) + i.right < RightEnd(p)
            && (Related(Ys(p.left.value)[i.left], Ys(p.right.value)[i.right]) && m.pos < MAX_POSITION <==> IsMatch(all, m))
  {
  }

  lemma GroupOrder(all: seq<Entry>, a: nat, b: nat)
    requires GroupsSorted(all)
    ensures a <= b < |all| ==> Group(all[a]) <= Group(all[b])
  {
  }

  lemma MatchInPair(all: seq<Entry>, p: Pair, group: nat, m: Match) returns (i: IndexPair)
    requires IsPair(all, p, group) && GroupsSorted(all) && IsMatch(all, m)
    requires RightStart(p) <= m.pos + m.off < RightEnd(p)
    ensures i.left < |p.left.value| && i.right < |p.right.value| && m.off == i.right + |p.left.value| - i.left
    ensures m.off < WORD16 ==> m == ToMatch(p.offset, p.left.value, p.right.value, i)
    ensures Related(Ys(p.left.value)[i.left], Ys(p.right.value)[i.right])
  {
    hide Group, Related;
    PartnerGroup(all[m.pos], all[m.pos + m.off]);
    assert Group(all[m.pos]) == group;
    assert Group(all[RightStart(p)]) == group + 1;
    GroupOrder(all, RightStart(p), m.pos);
    i := IndexPair(m.pos - p.offset, m.pos + m.off - RightStart(p));
  }

  /** Everything the matcher finds in a pair, added to the matches so far. */
  lemma PairDone(all: seq<Entry>, p: Pair, group: nat, found: seq<IndexPair>, out: seq<Match>, out': seq<Match>)
    requires IsPair(all, p, group) && GroupsSorted(all) && MatchesUpTo(all, out, RightStart(p))
    requires AllFound(Ys(p.left.value), Ys(p.right.value), found) && Fits(Ys(p.left.value), Ys(p.right.value))
    requires NoRepeats(out')
    requires forall m :: m in out' <==> m in out || Kept(p.offset, p.left.value, p.right.value, found, |found|, m)
    ensures MatchesUpTo(all, out', RightEnd(p))
  {
    BucketsLie(all, p, group);
    hide IsPair, IsMatch, Related, AllFound, Kept, GroupsSorted, Fits;
    forall m
      ensures m in out' <==> IsMatch(all, m) && m.pos + m.off < RightEnd(p)
    {
      if Kept(p.offset, p.left.value, p.right.value, found, |found|, m) {
        KeptIsMatch(all, p, group, found, m);
      }
      if IsMatch(all, m) && RightStart(p) <= m.pos + m.off < RightEnd(p) {
        MatchIsKept(all, p, group, found, m);
      }
    }
  }

  lemma BucketsLie(all: seq<Entry>, p: Pair, group: nat)
    requires IsPair(all, p, group)
    ensures p.left.Some? && p.right.Some? && RightStart(p) <= RightEnd(p) <= |all|
  {
  }

  lemma KeptIsMatch(all: seq<Entry>, p: Pair, group: nat, found: seq<IndexPair>, m: Match)
    requires IsPair(all, p, group) && AllFound(Ys(p.left.value), Ys(p.right.value), found)
    requires Fits(Ys(p.left.value), Ys(p.right.value))
    requires Kept(p.offset, p.left.value, p.right.value, found, |found|, m)
    ensures IsMatch(all, m) && m.pos + m.off < RightEnd(p)
  {
    hide IsMatch, Related;
    var k :| 0 <= k < |found| && found[k].left < |p.left.value| && found[k].right < |p.right.value|
             && m == ToMatch(p.offset, p.left.value, p.right.value, found[k]) && m.pos < MAX_POSITION;
    assert found[k] in found;
    PairMatch(all, p, group, found[k]);
  }

  lemma MatchIsKept(all: seq<Entry>, p: Pair, group: nat, found: seq<IndexPair>, m: Match)
    requires IsPair(all, p, group) && GroupsSorted(all) && AllFound(Ys(p.left.value), Ys(p.right.value), found)
    requires Fits(Ys(p.left.value), Ys(p.right.value))
    requires IsMatch(all, m) && RightStart(p) <= m.pos + m.off < RightEnd(p)
    ensures Kept(p.offset, p.left.value, p.right.value, found, |found|, m)
  {
    hide IsPair, Related;
    var i := MatchInPair(all, p, group, m);
    assert i in found;
  }

  lemma KeptIsNew(all: seq<Entry>, p: Pair, group: nat, found: seq<IndexPair>, k: nat, out: seq<Match>)
    requires IsPair(all, p, group) && MatchesUpTo(all, out, RightStart(p))
    requires AllFound(Ys(p.left.value), Ys(p.right.value), found) && k < |found|
    requires Fits(Ys(p.left.value), Ys(p.right.value))
    ensures found[k].left < |p.left.value| && found[k].right < |p.right.value|
    ensures var m := ToMatch(p.offset, p.left.value, p.right.value, found[k]);
            m !in out && !Kept(p.offset, p.left.value, p.right.value, found, k, m)
  {
    assert found[k] in found;
    PairMatch(all, p, group, found[k]);
    forall i | 0 <= i < k
      ensures ToMatch(p.offset, p.left.value, p.right.value, found[i])
              != ToMatch(p.offset, p.left.value, p.right.value, found[k])
    {
      assert found[i] in found;
      PairMatch(all, p, group, found[i]);
    }
  }

  /** A pair of the stream fits when the stream does. */
  lemma PairFits(all: seq<Entry>, p: Pair, group: nat)
    requires IsPair(all, p, group) && WordsFit(all)
    ensures Fits(Ys(p.left.value), Ys(p.right.value))
  {
    var left, right := p.left.value, p.right.value;
    forall i: nat, j: nat | i < |left| && j < |right| && Related(Ys(left)[i], Ys(right)[j])
      ensures i < WORD16 && j + |left| - i < WORD16
    {
      StartOfGroup(all, p.offset, RightStart(p), group, p.offset + i);
      assert Related(all[p.offset + i].y, all[RightStart(p) + j].y);
    }
  }

  /** Even a match that is wrong lies near. */
  lemma MatchNear(all: seq<Entry>, p: Pair, group: nat, i: IndexPair)
    requires IsPair(all, p, group) && InBuckets(i, |p.left.value|, |p.right.value|)
    ensures var m := ToMatch(p.offset, p.left.value, p.right.value, i);
            m.pos < |all| && Near(all, m.pos, m.pos + m.off)
  {
    StartOfGroup(all, p.offset, RightStart(p), group, p.offset + i.left);
  }

  const OVERFULL := "find_matches(): count > kBC"
  const NULL_BUCKET := "null bucket"

  /** Some group has more matches than the index arrays hold. */
  ghost predicate Overfull(all: seq<Entry>) {
    exists p: Pair, group: nat, found: seq<IndexPair> :: IsFull(all, p, group, found)
  }

  // ----- no pair that has been matched is overfull

  lemma NoneFullYet(all: seq<Entry>)
    ensures NoneFull(all, 0)
  {
    forall p: Pair, group: nat, found: seq<IndexPair> | IsFull(all, p, group, found)
      ensures SomeFrom(p, found, 0)
    {
      assert RightStart(p) + found[0].right >= 0;
    }
  }

  lemma NoneFullFurther(all: seq<Entry>, n: nat, n': nat)
    requires NoneFull(all, n) && n <= n' && NoneRelated(all, n, n')
    ensures NoneFull(all, n')
  {
    forall p: Pair, group: nat, found: seq<IndexPair> | IsFull(all, p, group, found)
      ensures SomeFrom(p, found, n')
    {
      assert SomeFrom(p, found, n);
      var k :| 0 <= k < |found| && RightStart(p) + found[k].right >= n;
      assert found[k] in found;
      assert Related(all[p.offset + found[k].left].y, all[RightStart(p) + found[k].right].y);
    }
  }

  lemma NoneFullAtEnd(all: seq<Entry>)
    requires NoneFull(all, |all|)
    ensures !Overfull(all)
  {
    if Overfull(all) {
      var p: Pair, group: nat, found: seq<IndexPair> :| IsFull(all, p, group, found);
      NoneFromEnd(all, p, group, found);
    }
  }

  lemma NoneFromEnd(all: seq<Entry>, p: Pair, group: nat, found: seq<IndexPair>)
    requires IsPair(all, p, group) && AllFound(Ys(p.left.value), Ys(p.right.value), found)
    ensures !SomeFrom(p, found, |all|)
  {
    forall k | 0 <= k < |found|
      ensures RightStart(p) + found[k].right < |all|
    {
      assert found[k] in found;
    }
  }

  lemma FrontNoRepeats<T(!new)>(s: seq<T>, front: seq<T>, last: T)
    requires NoRepeats(s) && s == front + [last]
    ensures NoRepeats(front) && last !in front
  {
    forall p, q | 0 <= p < q < |front|
      ensures front[p] != front[q]
    {
      assert s[p] == front[p] && s[q] == front[q];
    }
    forall p | 0 <= p < |front|
      ensures front[p] != last
    {
      assert s[p] == front[p] && s[|front|] == last;
    }
  }

  lemma {:induction false} ElementsOf<T(!new)>(s: seq<T>) returns (e: set<T>)
    requires NoRepeats(s)
    ensures |e| == |s| && forall x :: x in e <==> x in s
  {
    hide NoRepeats;
    if s == [] {
      e := {};
    } else {
      var front, last := s[..|s| - 1], s[|s| - 1];
      FrontNoRepeats(s, front, last);
      var before := ElementsOf(front);
      e := before + {last};
      InFrontOrLast(s, front, last);
    }
  }

  lemma InFrontOrLast<T(!new)>(s: seq<T>, front: seq<T>, last: T)
    requires s == front + [last]
    ensures forall x :: x in s <==> x in front || x == last
  {
  }

  /** Of two sequences without repetition the one that holds all of the other is as long. */
  lemma NoLonger<T(!new)>(s: seq<T>, t: seq<T>)
    requires NoRepeats(s) && NoRepeats(t) && forall x :: x in s ==> x in t
    ensures |s| <= |t|
  {
    var d := ElementsOf(s);
    var e := ElementsOf(t);
    assert d <= e;
    SubsetSize(d, e);
  }

  lemma {:induction false} SubsetSize<T>(d: set<T>, e: set<T>)
    requires d <= e
    ensures |d| <= |e|
    decreases |d|
  {
    if d != {} {
      var x :| x in d;
      SubsetSize(d - {x}, e - {x});
    }
  }

  /** A pair lies where its group does. */
  lemma PairPlace(all: seq<Entry>, p: Pair, q: Pair, group: nat)
    requires IsPair(all, p, group) && IsPair(all, q, group)
    ensures p.offset == q.offset && RightStart(p) == RightStart(q) && p.left == q.left
  {
    assert Group(all[p.offset]) == group == Group(all[q.offset]);
    assert Group(all[RightStart(p)]) == group + 1 == Group(all[RightStart(q)]);
  }

  /** Behind a pair that is not overfull there is nothing overfull that was not before it. */
  lemma NoneFullNext(all: seq<Entry>, p: Pair, group: nat, found: seq<IndexPair>)
    requires IsPair(all, p, group) && AllFound(Ys(p.left.value), Ys(p.right.value), found) && |found| <= kBC
    requires NoneFull(all, RightStart(p))
    ensures NoneFull(all, RightEnd(p))
  {
    hide AllFound, Related, IsGroup;
    forall q: Pair, h: nat, other: seq<IndexPair> | IsFull(all, q, h, other)
      ensures SomeFrom(q, other, RightEnd(p))
    {
      if !SomeFrom(q, other, RightEnd(p)) {
        assert SomeFrom(q, other, RightStart(p));
        FullIsLater(all, p, group, found, q, h, other);
      }
    }
  }

  lemma FullIsLater(all: seq<Entry>, p: Pair, group: nat, found: seq<IndexPair>, q: Pair, h: nat, other: seq<IndexPair>)
    requires IsPair(all, p, group) && AllFound(Ys(p.left.value), Ys(p.right.value), found) && |found| <= kBC
    requires IsFull(all, q, h, other) && SomeFrom(q, other, RightStart(p))
    ensures SomeFrom(q, other, RightEnd(p))
  {
    if !SomeFrom(q, other, RightEnd(p)) {
      var k :| 0 <= k < |other| && RightStart(q) + other[k].right >= RightStart(p);
      assert other[k] in other;
      SameGroupAs(all, p, group, q, h, other[k].right);
      PairPlace(all, p, q, group);
      forall x | x in other
        ensures x in found
      {
        var i :| 0 <= i < |other| && other[i] == x;
        assert RightStart(q) + other[i].right < RightEnd(p);
        SameRight(all, p, group, q, x.right);
      }
      NoLonger(other, found);
    }
  }

  lemma SameGroupAs(all: seq<Entry>, p: Pair, group: nat, q: Pair, h: nat, j: nat)
    requires IsPair(all, p, group) && IsPair(all, q, h) && j < |q.right.value|
    requires RightStart(p) <= RightStart(q) + j < RightEnd(p)
    ensures h == group
  {
    assert Group(all[RightStart(q) + j]) == group + 1;
  }

  lemma SameRight(all: seq<Entry>, p: Pair, group: nat, q: Pair, j: nat)
    requires IsPair(all, p, group) && IsPair(all, q, group) && j < |q.right.value|
    requires RightStart(p) == RightStart(q) && RightStart(q) + j < RightEnd(p)
    ensures j < |p.right.value| && Ys(p.right.value)[j] == Ys(q.right.value)[j]
  {
  }

  /** `find_matches` */
  method FindMatches(fx: FxMatcher, p: Pair, out: seq<Match>, targets: array3<nat>, ghost all: seq<Entry>,
                     ghost group: nat)
    returns (r: Result<seq<Match>>)
    requires fx.Valid() && TablesLoaded(targets) && Sorted(all) && IsPair(all, p, group)
    requires Matched(all, out, RightStart(p))
    modifies fx`rmapClean, fx.rmap
    ensures fx.Valid()
    ensures r.Ok? ==> Matched(all, r.value, RightEnd(p))
    ensures r.Err? ==> r.error == OVERFULL && Overfull(all)
  {
    var left, right := p.left.value, p.right.value;
    SortedGroups(all);
    BucketsFit(all, p, group);
    if WordsFit(all) {
      PairFits(all, p, group);
    }
    hide WordsFit, Fits, MatchesUpTo;
    var found, whole := fx.FindMatchesEx(Ys(left), Ys(right), targets, group);
    if |found| > kBC {
      assert IsFull(all, p, group, whole);
      return Err(OVERFULL);
    }
    r := KeepMatches(p, found, out, all, group);
  }

  /** The matches while the first n index pairs have been turned into matches. */
  ghost predicate Keeping(all: seq<Entry>, p: Pair, found: seq<IndexPair>, n: nat, out: seq<Match>, kept: seq<Match>)
    requires p.left.Some? && p.right.Some? && n <= |found|
  {
    && AllNear(all, kept)
    && (WordsFit(all) ==>
          && NoRepeats(kept)
          && forall m :: m in kept <==> m in out || Kept(p.offset, p.left.value, p.right.value, found, n, m))
  }

  /** What the matcher hands over for a pair. */
  ghost predicate FoundFor(all: seq<Entry>, p: Pair, group: nat, found: seq<IndexPair>)
    requires p.left.Some? && p.right.Some?
  {
    && GroupsSorted(all) && IsPair(all, p, group) && AllInBuckets(found, |p.left.value|, |p.right.value|)
    && (WordsFit(all) ==> AllFound(Ys(p.left.value), Ys(p.right.value), found)) && |found| <= kBC
  }

  lemma KeepingNext(all: seq<Entry>, p: Pair, group: nat, found: seq<IndexPair>, n: nat, out: seq<Match>, kept: seq<Match>)
    requires p.left.Some? && p.right.Some? && FoundFor(all, p, group, found) && n < |found|
    requires Matched(all, out, RightStart(p)) && Keeping(all, p, found, n, out, kept)
    ensures found[n].left < |p.left.value| && found[n].right < |p.right.value|
    ensures var m := ToMatch(p.offset, p.left.value, p.right.value, found[n]);
            Keeping(all, p, found, n + 1, out, if m.pos >= MAX_POSITION then kept else kept + [m])
  {
    assert found[n] in found;
    MatchNear(all, p, group, found[n]);
    var next := n + 1;
    forall x
      ensures Kept(p.offset, p.left.value, p.right.value, found, next, x)
              <==> Kept(p.offset, p.left.value, p.right.value, found, n, x)
                   || (x == ToMatch(p.offset, p.left.value, p.right.value, found[n]) && x.pos < MAX_POSITION)
    {
      KeptNext(p, found, n, next, x);
    }
    hide IsPair, AllFound, MatchesUpTo, GroupsSorted, WordsFit, Fits, Near, Kept, ToMatch;
    if WordsFit(all) {
      PairFits(all, p, group);
      KeptIsNew(all, p, group, found, n, out);
    }
  }

  lemma KeptNext(p: Pair, found: seq<IndexPair>, n: nat, next: nat, x: Match)
    requires p.left.Some? && p.right.Some? && n < |found| && next == n + 1
    requires found[n].left < |p.left.value| && found[n].right < |p.right.value|
    ensures Kept(p.offset, p.left.value, p.right.value, found, next, x)
            <==> Kept(p.offset, p.left.value, p.right.value, found, n, x)
                 || (x == ToMatch(p.offset, p.left.value, p.right.value, found[n]) && x.pos < MAX_POSITION)
  {
  }

  /** Turns index pairs into matches, dropping those whose position overflows. */
  method KeepMatches(p: Pair, found: seq<IndexPair>, out: seq<Match>, ghost all: seq<Entry>, ghost group: nat)
    returns (r: Result<seq<Match>>)
    requires p.left.Some? && p.right.Some? && FoundFor(all, p, group, found) && Matched(all, out, RightStart(p))
    ensures r.Ok? && Matched(all, r.value, RightEnd(p))
  {
    var left, right := p.left.value, p.right.value;
    var kept := out;
    hide FoundFor, Matched, Keeping;
    KeepingStart(all, p, found, out);
    for i := 0 to |found|
      invariant Keeping(all, p, found, i, out, kept)
    {
      KeepingNext(all, p, group, found, i, out, kept);
      var pos := p.offset + found[i].left;
      if pos >= MAX_POSITION {
        continue;
      }
      kept := kept + [ToMatch(p.offset, left, right, found[i])];
    }
    KeepingAll(all, p, group, found, out, kept);
    r := Ok(kept);
  }

  lemma KeepingStart(all: seq<Entry>, p: Pair, found: seq<IndexPair>, out: seq<Match>)
    requires p.left.Some? && p.right.Some? && Matched(all, out, RightStart(p))
    ensures Keeping(all, p, found, 0, out, out)
  {
    hide WordsFit;
  }

  lemma KeepingAll(all: seq<Entry>, p: Pair, group: nat, found: seq<IndexPair>, out: seq<Match>, kept: seq<Match>)
    requires p.left.Some? && p.right.Some? && FoundFor(all, p, group, found) && Matched(all, out, RightStart(p))
    requires Keeping(all, p, found, |found|, out, kept)
    ensures Matched(all, kept, RightEnd(p))
  {
    hide IsPair, AllFound, MatchesUpTo, GroupsSorted, WordsFit, Fits, Near;
    if WordsFit(all) {
      PairFits(all, p, group);
      PairDone(all, p, group, found, out, kept);
      NoneFullNext(all, p, group, found);
    }
  }

  lemma BucketsFit(all: seq<Entry>, p: Pair, group: nat)
    requires IsPair(all, p, group) && Sorted(all)
    ensures SameGroup(Ys(p.left.value), group) && SameGroup(Ys(p.right.value), group + 1) && SortedY(Ys(p.right.value))
  {
    var left, right := p.left.value, p.right.value;
    forall i | 0 <= i < |left|
      ensures Ys(left)[i] / kBC == group
    {
      assert Group(all[p.offset + i]) == group;
    }
    forall i | 0 <= i < |right|
      ensures Ys(right)[i] / kBC == group + 1
    {
      assert Group(all[RightStart(p) + i]) == group + 1;
    }
  }

  // ----- the whole table

  lemma NothingMore(all: seq<Entry>, out: seq<Match>, n: nat, n': nat)
    requires Matched(all, out, n) && n <= n' && NoneRelated(all, n, n')
    ensures Matched(all, out, n')
  {
    if WordsFit(all) {
      NoneFullFurther(all, n, n');
    }
    hide NoneFull, WordsFit;
    forall m
      ensures IsMatch(all, m) && m.pos + m.off < n' <==> IsMatch(all, m) && m.pos + m.off < n
    {
    }
  }

  /** Where the work on pair i begins, and the work after all pairs ends. */
  function Front(pairs: seq<Pair>, i: nat, to: nat): nat {
    if i < |pairs| then pairs[i].offset + (if pairs[i].left.Some? then |pairs[i].left.value| else 0) else to
  }

  lemma {:induction false} SlicedAt(all: seq<Entry>, pairs: seq<Pair>, from: nat, to: nat, i: nat) returns (group: nat)
    requires Sliced(all, pairs, from, to) && i < |pairs|
    ensures IsPair(all, pairs[i], group) && pairs[i].left.Some? && pairs[i].right.Some?
    ensures RightEnd(pairs[i]) <= Front(pairs, i + 1, to)
            && NoneRelated(all, RightEnd(pairs[i]), Front(pairs, i + 1, to))
    decreases |pairs|
  {
    var last := |pairs| - 1;
    if i == last {
      group :| IsPair(all, pairs[i], group);
    } else {
      hide IsPair, NoneRelated;
      group := SlicedAt(all, pairs[..last], from, RightStart(pairs[last]), i);
      assert Front(pairs[..last], i + 1, RightStart(pairs[last])) == Front(pairs, i + 1, to);
    }
  }

  lemma {:induction false} SlicedStart(all: seq<Entry>, pairs: seq<Pair>, from: nat, to: nat)
    requires Sliced(all, pairs, from, to)
    ensures from <= Front(pairs, 0, to) && NoneRelated(all, from, Front(pairs, 0, to))
    ensures !HasNull(pairs)
    decreases |pairs|
  {
    if |pairs| > 0 {
      SlicedStart(all, pairs[..|pairs| - 1], from, RightStart(pairs[|pairs| - 1]));
    }
  }

  /** The match pool's work on the pairs of one chunk. */
  method MatchPairs(fx: FxMatcher, pairs: seq<Pair>, matches: seq<Match>, targets: array3<nat>,
                    ghost all: seq<Entry>, ghost from: nat, ghost to: nat) returns (r: Result<seq<Match>>)
    requires fx.Valid() && TablesLoaded(targets) && Sorted(all)
    requires HasNull(pairs) || (Sliced(all, pairs, from, to) && Matched(all, matches, from))
    modifies fx`rmapClean, fx.rmap
    ensures fx.Valid()
    ensures HasNull(pairs) ==> r == Err(NULL_BUCKET)
    ensures pairs == [] ==> r == Ok(matches)
    ensures !HasNull(pairs) && r.Ok? ==> Matched(all, r.value, to)
    ensures !HasNull(pairs) && r.Err? ==> r.error == OVERFULL && Overfull(all)
  {
    hide Sliced, Matched, NoneRelated, Sorted, IsPair, Overfull;
    var out, i := matches, 0;
    if !HasNull(pairs) {
      SlicedStart(all, pairs, from, to);
      NothingMore(all, out, from, Front(pairs, 0, to));
    }
    while i < |pairs|
      invariant 0 <= i <= |pairs| && fx.Valid() && TablesLoaded(targets)
      invariant HasNull(pairs) ==> i == 0
      invariant pairs == [] ==> out == matches
      invariant !HasNull(pairs) ==> Matched(all, out, Front(pairs, i, to))
    {
      ghost var group := 0;
      if !HasNull(pairs) {
        group := SlicedAt(all, pairs, from, to, i);
      }
      if pairs[i].left.None? {
        return Err(NULL_BUCKET);
      }
      var more := FindMatches(fx, pairs[i], out, targets, all, group);
      if more.Err? {
        return Err(more.error);
      }
      out := more.value;
      NothingMore(all, out, RightEnd(pairs[i]), Front(pairs, i + 1, to));
      i := i + 1;
    }
    r := Ok(out);
  }

  /** The lowest group is the one that the slicing thread takes for a successor of a group never seen. */
  predicate StartsAtOne(all: seq<Entry>) {
    all != [] && Group(all[0]) == 1
  }

  /** The slicing thread after n entries, with the pairs cut since `from`. */
  ghost predicate Cut(slicer: Slicer, all: seq<Entry>, n: nat, from: nat, pairs: seq<Pair>)
    reads slicer
  {
    && slicer.Valid(all, n) && (n == 0 || slicer.NullBucket() ==> pairs == [])
    && if StartsAtOne(all) then HasNull(pairs) || ((n == 0 || slicer.NullBucket()) && from == slicer.offset0)
       else !slicer.NullBucket() && !HasNull(pairs) && Sliced(all, pairs, from, slicer.offset0)
  }

  lemma SlicedNothing(all: seq<Entry>, n: nat)
    ensures Sliced(all, [], n, n)
  {
  }

  lemma FirstGroup(all: seq<Entry>)
    ensures StartsAtOne(all) <==> |all| > 0 && Group(all[0]) == 1
  {
  }

  /** One input of the slicing thread. */
  method Slice(slicer: Slicer, chunk: seq<Entry>, ghost all: seq<Entry>, ghost n: nat) returns (r: Result<seq<Pair>>)
    requires GroupsSorted(all) && Cut(slicer, all, n, slicer.offset0, [])
    requires n + |chunk| <= |all| && all[n..n + |chunk|] == chunk
    modifies slicer
    ensures r.Ok? && Cut(slicer, all, n + |chunk|, old(slicer.offset0), r.value)
  {
    hide Sliced, Group, GroupsSorted;
    var pairs := [];
    ghost var from := slicer.offset0;
    FirstGroup(all);
    for i := 0 to |chunk|
      invariant Cut(slicer, all, n + i, from, pairs)
    {
      assert chunk[i] == all[n + i];
      ghost var first := n + i == 0;
      if first {
        SlicedNothing(all, 0);
      }
      var next := slicer.Take(chunk[i], pairs, all, n + i, from);
      if next.Err? {
        return next;
      }
      pairs := next.value;
    }
    r := Ok(pairs);
  }

  /** The variables of compute_matches between two chunks, when nothing has gone wrong. */
  ghost predicate Progress(slicer: Slicer, all: seq<Entry>, n: nat, matches: seq<Match>)
    reads slicer
  {
    Cut(slicer, all, n, slicer.offset0, []) && Matched(all, matches, slicer.offset0)
  }

  /** One chunk: sliced, and its pairs matched. */
  method Chunk(slicer: Slicer, fx: FxMatcher, chunk: seq<Entry>, matches: seq<Match>, targets: array3<nat>,
               ghost all: seq<Entry>, ghost n: nat) returns (r: Result<seq<Match>>)
    requires Sorted(all) && fx.Valid() && TablesLoaded(targets) && Progress(slicer, all, n, matches)
    requires n + |chunk| <= |all| && all[n..n + |chunk|] == chunk
    modifies slicer, fx`rmapClean, fx.rmap
    ensures fx.Valid()
    ensures r.Ok? ==> Progress(slicer, all, n + |chunk|, r.value)
    ensures r.Err? ==> if StartsAtOne(all) then r.error == NULL_BUCKET else r.error == OVERFULL && Overfull(all)
  {
    hide GroupsSorted, Sliced, Matched, Overfull, StartsAtOne;
    SortedGroups(all);
    ghost var from := slicer.offset0;
    var pairs := Slice(slicer, chunk, all, n);
    SlicedNothing(all, slicer.offset0);
    r := MatchPairs(fx, pairs.value, matches, targets, all, from, slicer.offset0);
  }

  /** The pair that is still open when the stream ends. */
  method LastMatches(slicer: Slicer, matches: seq<Match>, targets: array3<nat>, ghost all: seq<Entry>)
    returns (r: Result<seq<Match>>)
    requires Sorted(all) && TablesLoaded(targets) && Progress(slicer, all, |all|, matches)
    ensures StartsAtOne(all) ==> r == Err(NULL_BUCKET)
    ensures !StartsAtOne(all) ==>
              if r.Ok? then Matched(all, r.value, |all|) else r.error == OVERFULL && Overfull(all)
  {
    hide GroupsSorted, Sliced, Matched, Overfull, StartsAtOne, GroupEnding, Sorted;
    SortedGroups(all);
    SlicedNothing(all, slicer.offset0);
    if !slicer.NullBucket() {
      SlicedNext(all, |all|, [], slicer.offset0, slicer.index0, slicer.offset0, slicer.bucket0,
                 slicer.index1, slicer.offset1, slicer.bucket1);
    }
    StartsNonempty(all);
    ghost var from := slicer.offset0;
    var pairs := [];
    if slicer.index1 + 1 == slicer.index0 {
      pairs := [slicer.CurrentPair()];
      assert [] + [slicer.CurrentPair()] == [slicer.CurrentPair()];
    }
    var fx := new FxMatcher();
    r := MatchPairs(fx, pairs, matches, targets, all, from, |all|);
    if r.Ok? && pairs == [] {
      NothingLeft(all, matches, from);
    }
  }

  lemma StartsNonempty(all: seq<Entry>)
    ensures StartsAtOne(all) ==> |all| > 0
  {
  }

  lemma NothingLeft(all: seq<Entry>, out: seq<Match>, from: nat)
    requires Matched(all, out, from) && Sliced(all, [], from, |all|)
    ensures Matched(all, out, |all|)
  {
    NothingMore(all, out, from, |all|);
  }

  /** compute_matches on a sorted stream, however it is split into chunks. When its lowest group is 1 a
      null bucket is dereferenced; otherwise, unless some group has too many matches, the result holds
      exactly the related pairs of the whole stream with their positions, each once, if and only if every
      related pair fits the 16-bit words. */
  method ComputeMatches(chunks: seq<seq<Entry>>, targets: array3<nat>) returns (r: Result<seq<Match>>)
    requires Sorted(Flatten(chunks)) && TablesLoaded(targets)
    ensures StartsAtOne(Flatten(chunks)) ==> r == Err(NULL_BUCKET)
    ensures !StartsAtOne(Flatten(chunks)) ==>
              if r.Ok? then Matched(Flatten(chunks), r.value, |Flatten(chunks)|)
              else r.error == OVERFULL && Overfull(Flatten(chunks))
    ensures !StartsAtOne(Flatten(chunks)) && WordsFit(Flatten(chunks)) ==> (r.Err? <==> Overfull(Flatten(chunks)))
    ensures r.Ok? && |Flatten(chunks)| <= 0x1_0000_0000 ==>
              (MatchesUpTo(Flatten(chunks), r.value, |Flatten(chunks)|) <==> WordsFit(Flatten(chunks)))
  {
    PositionsAre32Bits();
    hide GroupsSorted, Sliced, Matched, Overfull, StartsAtOne, Sorted, Cut, MatchesUpTo, WordsFit;
    ghost var all, n := Flatten(chunks), 0;
    var slicer := new Slicer();
    var fx := new FxMatcher();
    var matches: seq<Match> := [];
    NoProgress(slicer, all);
    for i := 0 to |chunks|
      invariant fx.Valid() && fresh(fx) && fresh(fx.rmap) && fresh(slicer)
      invariant n == |Flatten(chunks[..i])| <= |all| && Progress(slicer, all, n, matches)
    {
      FlattenAt(chunks, i);
      var more := Chunk(slicer, fx, chunks[i], matches, targets, all, n);
      if more.Err? {
        return more;
      }
      n := n + |chunks[i]|;
      matches := more.value;
    }
    assert chunks[..|chunks|] == chunks;
    r := LastMatches(slicer, matches, targets, all);
    if r.Ok? && !StartsAtOne(all) {
      NotOverfull(all, r.value);
    }
    if r.Ok? && |all| <= MAX_POSITION {
      RightIffFits(all, r.value);
    }
  }

  /** A related pair that does not fit is lost. */
  lemma FarIsLost(all: seq<Entry>, out: seq<Match>, a: nat, b: nat)
    requires Sorted(all) && AllNear(all, out)
    requires a < |all| && b < |all| && Related(all[a].y, all[b].y) && a < MAX_POSITION && !Near(all, a, b)
    ensures !exists m :: m in out && m.pos == a && m.pos + m.off == b
    ensures !MatchesUpTo(all, out, |all|)
  {
    PartnerGroup(all[a], all[b]);
    SortedGroups(all);
    GroupOrder(all, b, a);
    hide Related, Near;
    var lost := Match(all[a], all[b], a, b - a);
    assert IsMatch(all, lost);
    assert lost !in out;
  }

  lemma RightIffFits(all: seq<Entry>, out: seq<Match>)
    requires Sorted(all) && |all| <= MAX_POSITION && Matched(all, out, |all|)
    ensures MatchesUpTo(all, out, |all|) <==> WordsFit(all)
  {
    hide MatchesUpTo, Sorted, Related, Near, AllNear;
    if !WordsFit(all) {
      var a: nat, b: nat :| a < |all| && b < |all| && Related(all[a].y, all[b].y) && !Near(all, a, b);
      FarIsLost(all, out, a, b);
    }
  }

  /** A group that is too wide for the words: 65536 entries of one y and one of the next, before the one
      entry that is related to the last of them. */
  function WideStream(): (all: seq<Entry>)
    ensures |all| == WORD16 + 2
  {
    seq(WORD16 + 2, i requires 0 <= i < WORD16 + 2 =>
      Entry(if i < WORD16 then 2 * kBC else if i == WORD16 then 2 * kBC + 1 else 3 * kBC + 1, 0))
  }

  lemma WideRelated(yl: nat, yr: nat)
    requires yl in {2 * kBC, 2 * kBC + 1, 3 * kBC + 1} && yr in {2 * kBC, 2 * kBC + 1, 3 * kBC + 1}
    ensures Related(yl, yr) <==> yl == 2 * kBC + 1 && yr == 3 * kBC + 1
  {
    if yl == 2 * kBC + 1 && yr == 3 * kBC + 1 {
      assert RelatedBy(yl, yr, 0);
    } else if yl == 2 * kBC && yr == 3 * kBC + 1 {
      forall m: nat | m < kExtraBitsPow
        ensures !RelatedBy(yl, yr, m)
      {
        if m > 0 {
          DivModUnique(0 - m, -1, kB - m, kB);
        }
      }
    }
  }

  /** It passes every check, and its one match is lost. */
  lemma WideGroupLosesMatch(out: seq<Match>)
    ensures var all := WideStream();
            && Sorted(all) && !StartsAtOne(all) && !Overfull(all) && |all| <= MAX_POSITION
            && |all| == 65538 && Related(all[65536].y, all[65537].y) && !WordsFit(all)
            && (Matched(all, out, |all|) ==> !MatchesUpTo(all, out, |all|))
  {
    var all := WideStream();
    WideRelated(all[WORD16].y, all[WORD16 + 1].y);
    SortedGroups(all);
    PositionsWide();
    StartOfGroup(all, 0, WORD16 + 1, 2, WORD16);
    assert !Near(all, WORD16, WORD16 + 1);
    WideNotOverfull();
    hide Related, GroupStart, Overfull, MatchesUpTo, AllNear;
    if Matched(all, out, |all|) {
      FarIsLost(all, out, WORD16, WORD16 + 1);
    }
  }

  lemma PositionsWide()
    ensures WORD16 + 2 <= MAX_POSITION
  {
    assert Pow2(8) == 256;
    Pow2Add(8, 8);
    Pow2Strict(16, 32);
  }

  /** There is one related pair only. */
  lemma WideNotOverfull()
    ensures !Overfull(WideStream())
  {
    var all := WideStream();
    if Overfull(all) {
      var p, group, found :|
        IsFull(all, p, group, found);
      FoundDiffer(p, found);
      hide IsPair, AllFound, WideStream, Ys;
      WideFound(p, group, found, 0);
      WideFound(p, group, found, 1);
    }
  }

  lemma FoundDiffer(p: Pair, found: seq<IndexPair>)
    requires p.left.Some? && p.right.Some? && |found| > 1
    requires AllFound(Ys(p.left.value), Ys(p.right.value), found)
    ensures found[0].left != found[1].left || found[0].right != found[1].right
  {
    assert found[0] != found[1];
  }

  lemma WideFound(p: Pair, group: nat, found: seq<IndexPair>, k: nat)
    requires IsPair(WideStream(), p, group) && AllFound(Ys(p.left.value), Ys(p.right.value), found) && k < |found|
    ensures p.offset + found[k].left == WORD16 && RightStart(p) + found[k].right == WORD16 + 1
  {
    var all := WideStream();
    var pair := found[k];
    assert pair in found;
    var yl, yr := all[p.offset + pair.left].y, all[RightStart(p) + pair.right].y;
    assert yl == Ys(p.left.value)[pair.left] && yr == Ys(p.right.value)[pair.right];
    WideRelated(yl, yr);
  }

  /** The lowest group being 1 is reached: one entry is enough. */
  lemma OneEntryStartsAtOne()
    ensures Sorted([Entry(kBC, 0)]) && StartsAtOne([Entry(kBC, 0)])
  {
  }

  lemma NotOverfull(all: seq<Entry>, out: seq<Match>)
    requires Matched(all, out, |all|)
    ensures WordsFit(all) ==> !Overfull(all)
  {
    hide WordsFit, NoneFull, Overfull;
    if WordsFit(all) {
      NoneFullAtEnd(all);
    }
  }

  lemma NoProgress(slicer: Slicer, all: seq<Entry>)
    requires slicer.index0 == slicer.index1 == slicer.offset0 == slicer.offset1 == 0
    requires slicer.bucket0 == slicer.bucket1 == None
    ensures Progress(slicer, all, 0, [])
  {
    SlicedNothing(all, 0);
    NoneFullYet(all);
    hide NoneFull, WordsFit;
  }

  /** What the result means: a match for every related pair of entries whose left position fits, with
      its position and a positive distance, and no other. */
  lemma MatchesAreRelation(all: seq<Entry>, out: seq<Match>, i: nat, j: nat)
    requires Sorted(all) && MatchesUpTo(all, out, |all|) && i < |all| && j < |all|
    ensures Related(all[i].y, all[j].y) ==> i < j
    ensures Related(all[i].y, all[j].y) && i < 0x1_0000_0000 <==>
              exists m :: m in out && m.pos == i && m.pos + m.off == j && m.off >= 1
    ensures forall m :: m in out && m.pos == i && m.pos + m.off == j ==> m == Match(all[i], all[j], i, j - i)
  {
    PositionsAre32Bits();
    PartnerGroup(all[i], all[j]);
    SortedGroups(all);
    GroupOrder(all, j, i);
    if Related(all[i].y, all[j].y) && i < MAX_POSITION {
      assert IsMatch(all, Match(all[i], all[j], i, j - i));
    }
  }
}
