/** Matching of two adjacent groups of y values: the lookup of 64 precomputed targets finds exactly
    the pairs that stand in the relation of the plot format. */
module Matching {
  import opened Powers

  const kB: nat := 119
  const kC: nat := 127
  const kBC: nat := 15113
  const kExtraBitsPow: nat := 64

  function Square(n: nat): nat {
    n * n
  }

  /** The relation between a left and a right y value, for one m. */
  predicate RelatedBy(yl: nat, yr: nat, m: nat) {
    && yl / kBC + 1 == yr / kBC
    && ((yr % kBC) / kC - (yl % kBC) / kC - m) % kB == 0
    && ((yr % kBC) % kC - (yl % kBC) % kC - Square(2 * m + (yl / kBC) % 2)) % kC == 0
  }

  ghost predicate Related(yl: nat, yr: nat) {
    exists m: nat :: m < kExtraBitsPow && RelatedBy(yl, yr, m)
  }

  /** An entry of `L_targets`. */
  function Target(parity: nat, i: nat, m: nat): nat {
    ((i / kC + m) % kB) * kC + (Square(2 * m + parity) + i) % kC
  }

  lemma SameResidue(a: nat, b: nat, d: nat)
    requires d > 0 && a < d
    ensures (a - b) % d == 0 <==> b % d == a
  {
    var q, r := b / d, b % d;
    assert b == q * d + r;
    if r == a {
      assert a - b == (-q) * d;
      DivModUnique(a - b, -q, 0, d);
    } else if r < a {
      assert a - b == (-q) * d + (a - r);
      DivModUnique(a - b, -q, a - r, d);
    } else {
      assert (-q - 1) * d == -q * d - d;
      DivModUnique(a - b, -q - 1, a - r + d, d);
    }
  }

  lemma ModOfSum(a: nat, b: nat, d: nat)
    requires d > 0
    ensures (a + b % d) % d == (a + b) % d
  {
    var x := a + b % d;
    DivMod(x, d);
    DivMod(b, d);
    assert a + b == (x / d + b / d) * d + x % d by { assert (x / d + b / d) * d == (x / d) * d + (b / d) * d; }
    DivModUnique(a + b, x / d + b / d, x % d, d);
  }

  lemma Digits(r: nat, b: nat, c: nat, d: nat)
    requires c < d
    ensures r == b * d + c <==> r / d == b && r % d == c
  {
    DivMod(r, d);
    if r == b * d + c {
      DivModUnique(r, b, c, d);
    }
  }

  lemma DigitsBelow(b: nat, c: nat, m: nat, d: nat)
    requires b < m && c < d
    ensures b * d + c < m * d
  {
    MulMonotone(b + 1, m, d);
    assert (b + 1) * d == b * d + d;
  }

  /** The target is the one y offset that stands in the relation. */
  lemma TargetIsRelated(yl: nat, yr: nat, m: nat)
    requires yl / kBC + 1 == yr / kBC
    ensures RelatedBy(yl, yr, m) <==> yr % kBC == Target((yl / kBC) % 2, yl % kBC, m)
    ensures Target((yl / kBC) % 2, yl % kBC, m) < kBC
  {
    var i, r, sq := yl % kBC, yr % kBC, Square(2 * m + (yl / kBC) % 2);
    hide Square;
    TargetOf(i, r, sq, m);
  }

  lemma TargetOf(i: nat, r: nat, sq: nat, m: nat)
    requires i < kBC && r < kBC
    ensures (r / kC - i / kC - m) % kB == 0 && (r % kC - i % kC - sq) % kC == 0
       <==> r == ((i / kC + m) % kB) * kC + (sq + i) % kC
    ensures ((i / kC + m) % kB) * kC + (sq + i) % kC < kBC
  {
    var b, c := (i / kC + m) % kB, (sq + i) % kC;
    SameResidue(r / kC, i / kC + m, kB);
    SameResidue(r % kC, sq + i % kC, kC);
    ModOfSum(sq, i, kC);
    Digits(r, b, c, kC);
    DigitsBelow(b, c, kB, kC);
    assert r / kC - (i / kC + m) == r / kC - i / kC - m;
    assert r % kC - (sq + i % kC) == r % kC - i % kC - sq;
  }

  lemma SameShift(i: nat, m: nat, m': nat, d: nat)
    requires m < d && m' < d && (i + m) % d == (i + m') % d
    ensures m == m'
  {
    var q, q' := (i + m) / d, (i + m') / d;
    DivMod(i + m, d);
    DivMod(i + m', d);
    assert (q - q') * d == m - m';
    assert (q' - q) * d == m' - m;
    if q > q' {
      MulMonotone(1, q - q', d);
    } else if q < q' {
      MulMonotone(1, q' - q, d);
    }
  }

  /** No pair is related by two different m. */
  lemma RelatedOnce(yl: nat, yr: nat, m: nat, m': nat)
    requires RelatedBy(yl, yr, m) && RelatedBy(yl, yr, m') && m < kExtraBitsPow && m' < kExtraBitsPow
    ensures m == m'
  {
    hide Square;
    OnceByB((yl % kBC) / kC, (yr % kBC) / kC, m, m');
  }

  lemma OnceByB(i: nat, r: nat, m: nat, m': nat)
    requires (r - i - m) % kB == 0 && (r - i - m') % kB == 0
    requires r < kB && m < kExtraBitsPow && m' < kExtraBitsPow
    ensures m == m'
  {
    SameResidue(r, i + m, kB);
    SameResidue(r, i + m', kB);
    assert r - i - m == r - (i + m) && r - i - m' == r - (i + m');
    SameShift(i, m, m', kB);
  }

  // ----- how many right values a left one is related to

  /** The targets of the first n values of m, which are all different. */
  function Targets(parity: nat, i: nat, n: nat): set<nat> {
    if n == 0 then {} else Targets(parity, i, n - 1) + {Target(parity, i, n - 1)}
  }

  lemma {:induction false} InTargets(parity: nat, i: nat, n: nat, r: nat)
    ensures r in Targets(parity, i, n) <==> exists m: nat :: m < n && r == Target(parity, i, m)
  {
    if n > 0 {
      InTargets(parity, i, n - 1, r);
    }
  }

  lemma TargetsDiffer(yl: nat, m: nat, m': nat)
    requires m < m' < kExtraBitsPow
    ensures Target((yl / kBC) % 2, yl % kBC, m) != Target((yl / kBC) % 2, yl % kBC, m')
  {
    var r := Target((yl / kBC) % 2, yl % kBC, m);
    var yr := (yl / kBC + 1) * kBC + r;
    TargetIsRelated(yl, (yl / kBC + 1) * kBC, m);
    DivModUnique(yr, yl / kBC + 1, r, kBC);
    TargetIsRelated(yl, yr, m);
    TargetIsRelated(yl, yr, m');
    hide RelatedBy, Target;
    if r == Target((yl / kBC) % 2, yl % kBC, m') {
      RelatedOnce(yl, yr, m, m');
    }
  }

  lemma {:induction false} CountTargets(yl: nat, n: nat)
    requires n <= kExtraBitsPow
    ensures |Targets((yl / kBC) % 2, yl % kBC, n)| == n
  {
    if n > 0 {
      CountTargets(yl, n - 1);
      var parity, i := (yl / kBC) % 2, yl % kBC;
      InTargets(parity, i, n - 1, Target(parity, i, n - 1));
      forall m: nat | m < n - 1
        ensures Target(parity, i, m) != Target(parity, i, n - 1)
      {
        TargetsDiffer(yl, m, n - 1);
      }
    }
  }

  lemma RelatedToTargets(yl: nat, r: nat)
    requires r < kBC
    ensures Related(yl, (yl / kBC + 1) * kBC + r) <==> r in Targets((yl / kBC) % 2, yl % kBC, kExtraBitsPow)
  {
    var parity, i, yr := (yl / kBC) % 2, yl % kBC, (yl / kBC + 1) * kBC + r;
    DivModUnique(yr, yl / kBC + 1, r, kBC);
    InTargets(parity, i, kExtraBitsPow, r);
    forall m: nat
      ensures RelatedBy(yl, yr, m) <==> r == Target(parity, i, m)
    {
      TargetIsRelated(yl, yr, m);
    }
    hide RelatedBy, Target, Targets;
  }

  function InNextGroup(yl: nat, r: int): (yr: nat)
    requires r >= 0
  {
    (yl / 15113 + 1) * 15113 + r
  }

  /** Every left y value is related to exactly 64 of the 15113 values of the next group. */
  lemma SixtyFourRelated(yl: nat)
    ensures |set r | 0 <= r < 15113 && Related(yl, InNextGroup(yl, r))| == 64
  {
    hide Related, Target, Targets;
    CountTargets(yl, kExtraBitsPow);
    var related := set r | 0 <= r < 15113 && Related(yl, InNextGroup(yl, r));
    forall r: nat
      ensures r in related <==> r in Targets((yl / kBC) % 2, yl % kBC, kExtraBitsPow)
    {
      if r < kBC {
        RelatedToTargets(yl, r);
      } else {
        TargetsBelow(yl, kExtraBitsPow, r);
      }
    }
    assert related == Targets((yl / kBC) % 2, yl % kBC, kExtraBitsPow);
  }

  lemma TargetsBelow(yl: nat, n: nat, r: nat)
    requires r >= kBC
    ensures r !in Targets((yl / kBC) % 2, yl % kBC, n)
  {
    InTargets((yl / kBC) % 2, yl % kBC, n, r);
    forall m: nat
      ensures Target((yl / kBC) % 2, yl % kBC, m) < kBC
    {
      TargetIsRelated(yl, (yl / kBC + 1) * kBC, m);
    }
  }

  /** From the first y of group 2: the first, a middle and the last of its 64 partners, and the value that a
      65th would have. */
  lemma PartnersOf30226()
    ensures Related(30226, 45339) && Related(30226, 50469) && Related(30226, 53341)
    ensures !Related(30226, 53468) && !Related(30226, 45340) && !Related(30226, 53341 + 15113)
  {
    assert RelatedBy(30226, 45339, 0) && RelatedBy(30226, 50469, 40) && RelatedBy(30226, 53341, 63);
    assert RelatedBy(30226, 53468, 64);
    forall m: nat | m < kExtraBitsPow
      ensures !RelatedBy(30226, 53468, m) && !RelatedBy(30226, 45340, m)
    {
      assert 53468 / kBC == 3 && 53468 % kBC == 8129 && 8129 / kC == 64;
      SameResidue(64, m, kB);
      assert 45340 / kBC == 3 && 45340 % kBC == 1 && 1 / kC == 0;
      SameResidue(0, m, kB);
    }
  }

  /** From the last y of group 3, an odd one, where both digits go round: partners for m = 0, 1 and 63. */
  lemma PartnersOf60451()
    ensures Related(60451, 75438) && Related(60451, 60460) && Related(60451, 68452)
    ensures !Related(60451, 75439) && !Related(60451, 60461)
  {
    assert RelatedBy(60451, 75438, 0) && RelatedBy(60451, 60460, 1) && RelatedBy(60451, 68452, 63);
    LastPartners(60451, 75438, 75439, 0);
    LastPartners(60451, 60460, 60461, 1);
  }

  lemma NotTwice(i: nat, r: nat, m: nat, m': nat)
    requires (r - i - m) % kB == 0 && r < kB && m < kExtraBitsPow && m' < kExtraBitsPow && m' != m
    ensures (r - i - m') % kB != 0
  {
    if (r - i - m') % kB == 0 {
      OnceByB(i, r, m, m');
    }
  }

  /** The next value over is not related when the digit for m is the same and that for its square is not. */
  lemma LastPartners(yl: nat, yr: nat, next: nat, m: nat)
    requires RelatedBy(yl, yr, m) && m < kExtraBitsPow && next == yr + 1 && next / kBC == yr / kBC
    requires (next % kBC) / kC == (yr % kBC) / kC
    ensures !Related(yl, next)
  {
    hide Square;
    var i, r := (yl % kBC) / kC, (yr % kBC) / kC;
    TargetIsRelated(yl, yr, m);
    TargetIsRelated(yl, next, m);
    forall m': nat | m' < kExtraBitsPow
      ensures !RelatedBy(yl, next, m')
    {
      if m' != m {
        NotTwice(i, r, m, m');
      }
    }
  }

  /** `load_tables` */
  method LoadTables() returns (targets: array3<nat>)
    ensures fresh(targets) && TablesLoaded(targets)
  {
    targets := new nat[2, kBC, kExtraBitsPow];
    for parity := 0 to 2
      invariant forall p, i, m :: 0 <= p < parity && 0 <= i < kBC && 0 <= m < kExtraBitsPow ==>
        targets[p, i, m] == Target(p, i, m)
    {
      for i := 0 to kBC
        invariant forall p, i, m :: 0 <= p < parity && 0 <= i < kBC && 0 <= m < kExtraBitsPow ==>
          targets[p, i, m] == Target(p, i, m)
        invariant forall i', m :: 0 <= i' < i && 0 <= m < kExtraBitsPow ==>
                    targets[parity, i', m] == Target(parity, i', m)
      {
        var indJ := i / kC;
        for m := 0 to kExtraBitsPow
          invariant forall p, i, m :: 0 <= p < parity && 0 <= i < kBC && 0 <= m < kExtraBitsPow ==>
            targets[p, i, m] == Target(p, i, m)
          invariant forall i', m :: 0 <= i' < i && 0 <= m < kExtraBitsPow ==>
                      targets[parity, i', m] == Target(parity, i', m)
          invariant forall m' :: 0 <= m' < m ==> targets[parity, i, m'] == Target(parity, i, m')
        {
          targets[parity, i, m] := ((indJ + m) % kB) * kC + ((2 * m + parity) * (2 * m + parity) + i) % kC;
        }
      }
    }
  }

  ghost predicate TablesLoaded(targets: array3<nat>)
    reads targets
  {
    && targets.Length0 == 2 && targets.Length1 == kBC && targets.Length2 == kExtraBitsPow
    && forall p, i, m :: 0 <= p < 2 && 0 <= i < kBC && 0 <= m < kExtraBitsPow ==> targets[p, i, m] == Target(p, i, m)
  }

  // ----- the lookup table over the right bucket

  /** The values of a 16-bit word, in which the matcher keeps positions and counts. */
  const WORD16: nat := 0x1_0000

  /** `rmap_item`: where the entries of one y offset start in the right bucket, and how many there are. */
  datatype Item = Item(pos: nat, count: nat)

  /** The items as the matcher holds them, in 16-bit words. A count that comes round to zero starts anew
      at a position that is the same word. */
  ghost predicate InWords(items: seq<Item>, full: seq<Item>) {
    && |items| == |full|
    && forall r: nat :: r < |full| ==>
         items[r].count == full[r].count % WORD16 && (full[r].count > 0 ==> items[r].pos == full[r].pos % WORD16)
  }

  predicate SortedY(ys: seq<nat>) {
    forall p, q :: 0 <= p < q < |ys| ==> ys[p] <= ys[q]
  }

  predicate SameGroup(ys: seq<nat>, group: nat) {
    forall p :: 0 <= p < |ys| ==> ys[p] / kBC == group
  }

  predicate Holds(item: Item, p: int) {
    item.pos <= p < item.pos + item.count
  }

  /** The table locates the first n entries of the right bucket by their y offset. */
  ghost predicate Located(items: seq<Item>, ys: seq<nat>, n: nat)
    requires n <= |ys|
  {
    && |items| == kBC
    && (forall r :: 0 <= r < kBC && items[r].count > 0 ==> items[r].pos + items[r].count <= n)
    && forall r, p :: 0 <= r < kBC && 0 <= p < n ==> (Holds(items[r], p) <==> ys[p] % kBC == r)
  }

  lemma LocateNext(items: seq<Item>, ys: seq<nat>, n: nat, group: nat)
    requires n < |ys| && SortedY(ys) && SameGroup(ys, group) && Located(items, ys, n)
    ensures var r := ys[n] % kBC;
            var item := if items[r].count == 0 then Item(n, 1) else items[r].(count := items[r].count + 1);
            Located(items[r := item], ys, n + 1)
  {
    var r := ys[n] % kBC;
    if items[r].count > 0 {
      RunReaches(items, ys, n, group);
    }
  }

  /** The same step on the words. */
  lemma WordsNext(items: seq<Item>, full: seq<Item>, ys: seq<nat>, n: nat, group: nat)
    requires n < |ys| && SortedY(ys) && SameGroup(ys, group) && Located(full, ys, n) && InWords(items, full)
    ensures var r := ys[n] % kBC;
            var item := if items[r].count == 0 then Item(n % WORD16, 1)
                        else items[r].(count := (items[r].count + 1) % WORD16);
            var whole := if full[r].count == 0 then Item(n, 1) else full[r].(count := full[r].count + 1);
            InWords(items[r := item], full[r := whole])
  {
    var r := ys[n] % kBC;
    var whole := full[r];
    if whole.count > 0 {
      RunReaches(full, ys, n, group);
      WordOfNext(whole.pos, whole.count, n);
    }
  }

  /** The run of an offset ends where the next entry with that offset comes. */
  lemma RunReaches(items: seq<Item>, ys: seq<nat>, n: nat, group: nat)
    requires n < |ys| && SortedY(ys) && SameGroup(ys, group) && Located(items, ys, n)
    requires items[ys[n] % kBC].count > 0
    ensures items[ys[n] % kBC].pos + items[ys[n] % kBC].count == n
  {
    var item := items[ys[n] % kBC];
    assert Holds(item, item.pos);
    SameOffset(ys[item.pos], ys[n]);
    assert ys[n - 1] == ys[n];
    assert Holds(item, n - 1);
  }

  lemma WordOfNext(pos: nat, count: nat, n: nat)
    requires pos + count == n
    ensures (count + 1) % WORD16 == (count % WORD16 + 1) % WORD16
    ensures count % WORD16 == 0 ==> n % WORD16 == pos % WORD16 && (count + 1) % WORD16 == 1
  {
  }

  lemma SameOffset(a: nat, b: nat)
    requires a / kBC == b / kBC && a % kBC == b % kBC
    ensures a == b
  {
    DivMod(a, kBC);
    DivMod(b, kBC);
  }

  // ----- the matcher

  datatype IndexPair = IndexPair(left: nat, right: nat)

  /** Whether a pair is found once the left entries below `a` are done, and the first m targets of a. */
  ghost predicate FoundBy(ysL: seq<nat>, ysR: seq<nat>, pair: IndexPair, a: nat, m: nat) {
    && pair.left < |ysL| && pair.right < |ysR|
    && exists m' {:trigger RelatedBy(ysL[pair.left], ysR[pair.right], m')} ::
         0 <= m' < (if pair.left < a then kExtraBitsPow else if pair.left == a then m else 0)
         && RelatedBy(ysL[pair.left], ysR[pair.right], m')
  }

  ghost predicate NoRepeats<T(!new)>(s: seq<T>) {
    forall p, q :: 0 <= p < q < |s| ==> s[p] != s[q]
  }

  ghost predicate Found(ysL: seq<nat>, ysR: seq<nat>, out: seq<IndexPair>, a: nat, m: nat) {
    && NoRepeats(out)
    && forall pair :: pair in out <==> FoundBy(ysL, ysR, pair, a, m)
  }

  function Hits(a: nat, item: Item, count: nat): seq<IndexPair> {
    seq(count, j requires 0 <= j => IndexPair(a, item.pos + j))
  }

  /** The entries of one target are the matches for that m. */
  lemma HitsAreFound(ysL: seq<nat>, ysR: seq<nat>, group: nat, items: seq<Item>, a: nat, m: nat, pair: IndexPair)
    requires SameGroup(ysL, group) && SameGroup(ysR, group + 1) && Located(items, ysR, |ysR|)
    requires a < |ysL| && m < kExtraBitsPow
    ensures Target(group % 2, ysL[a] % kBC, m) < kBC
    ensures var item := items[Target(group % 2, ysL[a] % kBC, m)];
            pair in Hits(a, item, item.count) <==>
              pair.left == a && pair.right < |ysR| && RelatedBy(ysL[a], ysR[pair.right], m)
  {
    if |ysR| > 0 {
      TargetIsRelated(ysL[a], ysR[0], m);
    } else {
      TargetIsRelated(ysL[a], (group + 1) * kBC, m);
    }
    var item := items[Target(group % 2, ysL[a] % kBC, m)];
    if pair.right < |ysR| {
      TargetIsRelated(ysL[a], ysR[pair.right], m);
    }
    if pair.left == a && Holds(item, pair.right) {
      assert Hits(a, item, item.count)[pair.right - item.pos] == pair;
    }
  }

  lemma HitsAreNew(ysL: seq<nat>, ysR: seq<nat>, pair: IndexPair, a: nat, m: nat)
    requires pair.left == a < |ysL| && pair.right < |ysR| && m < kExtraBitsPow && RelatedBy(ysL[a], ysR[pair.right], m)
    ensures !FoundBy(ysL, ysR, pair, a, m)
  {
    if FoundBy(ysL, ysR, pair, a, m) {
      var m' :| 0 <= m' < m && RelatedBy(ysL[a], ysR[pair.right], m');
      RelatedOnce(ysL[a], ysR[pair.right], m, m');
    }
  }

  lemma FoundNext(ysL: seq<nat>, ysR: seq<nat>, group: nat, items: seq<Item>, out: seq<IndexPair>, a: nat, m: nat)
    requires SameGroup(ysL, group) && SameGroup(ysR, group + 1) && Located(items, ysR, |ysR|)
    requires a < |ysL| && m < kExtraBitsPow && Found(ysL, ysR, out, a, m)
    ensures Target(group % 2, ysL[a] % kBC, m) < kBC
    ensures var item := items[Target(group % 2, ysL[a] % kBC, m)];
            Found(ysL, ysR, out + Hits(a, item, item.count), a, m + 1)
  {
    HitsAreFound(ysL, ysR, group, items, a, m, IndexPair(0, 0));
    var item := items[Target(group % 2, ysL[a] % kBC, m)];
    var hits := Hits(a, item, item.count);
    hide RelatedBy, Target, Located, Hits;
    forall pair
      ensures pair in out + hits <==> FoundBy(ysL, ysR, pair, a, m + 1)
      ensures pair in hits ==> pair !in out
    {
      HitsAreFound(ysL, ysR, group, items, a, m, pair);
      if pair in hits {
        HitsAreNew(ysL, ysR, pair, a, m);
      }
    }
    HitsDiffer(a, item, item.count);
    AppendNoRepeats(out, hits);
  }

  lemma HitsDiffer(a: nat, item: Item, count: nat)
    ensures NoRepeats(Hits(a, item, count))
  {
  }

  lemma AppendNoRepeats<T(!new)>(s: seq<T>, t: seq<T>)
    requires NoRepeats(s) && NoRepeats(t) && forall x :: x in t ==> x !in s
    ensures NoRepeats(s + t)
  {
    forall p, q | 0 <= p < q < |s + t|
      ensures (s + t)[p] != (s + t)[q]
    {
      if p < |s| <= q {
        assert (s + t)[q] in t;
      }
    }
  }

  /** All targets of one left entry done: on to the next. */
  lemma FoundRow(ysL: seq<nat>, ysR: seq<nat>, out: seq<IndexPair>, a: nat)
    requires Found(ysL, ysR, out, a, kExtraBitsPow)
    ensures Found(ysL, ysR, out, a + 1, 0)
  {
    forall pair
      ensures FoundBy(ysL, ysR, pair, a, kExtraBitsPow) <==> FoundBy(ysL, ysR, pair, a + 1, 0)
    {
    }
  }

  /** Everything that is related, and nothing else, each once. */
  ghost predicate AllFound(ysL: seq<nat>, ysR: seq<nat>, out: seq<IndexPair>) {
    && NoRepeats(out)
    && forall pair :: pair in out <==> pair.left < |ysL| && pair.right < |ysR| && Related(ysL[pair.left], ysR[pair.right])
  }

  lemma FoundIsAll(ysL: seq<nat>, ysR: seq<nat>, out: seq<IndexPair>)
    requires Found(ysL, ysR, out, |ysL|, 0)
    ensures AllFound(ysL, ysR, out)
  {
    forall pair
      ensures FoundBy(ysL, ysR, pair, |ysL|, 0) <==>
              pair.left < |ysL| && pair.right < |ysR| && Related(ysL[pair.left], ysR[pair.right])
    {
    }
  }

  /** Every related pair can be told in 16-bit words: its left index, and the distance of its entries in
      the stream where the right bucket follows the left one. */
  ghost predicate Fits(ysL: seq<nat>, ysR: seq<nat>) {
    forall i: nat, j: nat :: i < |ysL| && j < |ysR| && Related(ysL[i], ysR[j]) ==> i < 0x1_0000 && j + |ysL| - i < 0x1_0000
  }

  /** The index pairs of one target as they are stored. */
  function WordHits(a: nat, item: Item, count: nat): seq<IndexPair> {
    seq(count, j requires 0 <= j => IndexPair(a % WORD16, (item.pos + j) % WORD16))
  }

  ghost predicate InBuckets(pair: IndexPair, left: nat, right: nat) {
    pair.left < left && pair.right < right && pair.left < WORD16
  }

  ghost predicate AllInBuckets(out: seq<IndexPair>, left: nat, right: nat) {
    forall pair :: pair in out ==> InBuckets(pair, left, right)
  }

  /** What has been stored, against what has been found. */
  ghost predicate Stored(ysL: seq<nat>, ysR: seq<nat>, out: seq<IndexPair>, whole: seq<IndexPair>) {
    && |out| <= |whole| && AllInBuckets(out, |ysL|, |ysR|)
    && (Fits(ysL, ysR) ==> out == whole)
  }

  lemma StoredNext(ysL: seq<nat>, ysR: seq<nat>, out: seq<IndexPair>, whole: seq<IndexPair>,
                   words: seq<IndexPair>, hits: seq<IndexPair>)
    requires Stored(ysL, ysR, out, whole) && Stored(ysL, ysR, words, hits)
    ensures Stored(ysL, ysR, out + words, whole + hits)
  {
    hide Fits, InBuckets;
  }

  /** Words are right as long as the related pairs fit, and name entries of the buckets in any case. */
  lemma WordHitsOf(ysL: seq<nat>, ysR: seq<nat>, group: nat, items: seq<Item>, full: seq<Item>, a: nat, m: nat)
    requires SameGroup(ysL, group) && SameGroup(ysR, group + 1) && Located(full, ysR, |ysR|) && InWords(items, full)
    requires a < |ysL| && m < kExtraBitsPow
    ensures Target(group % 2, ysL[a] % kBC, m) < kBC == |items| == |full|
    ensures var r := Target(group % 2, ysL[a] % kBC, m);
            Stored(ysL, ysR, WordHits(a, items[r], items[r].count), Hits(a, full[r], full[r].count))
  {
    HitsAreFound(ysL, ysR, group, full, a, m, IndexPair(0, 0));
    var r := Target(group % 2, ysL[a] % kBC, m);
    var words, hits := WordHits(a, items[r], items[r].count), Hits(a, full[r], full[r].count);
    hide RelatedBy, Target, SameGroup;
    if full[r].count > 0 {
      HitWordsIn(a, items[r], full[r], |ysL|, |ysR|);
      if Fits(ysL, ysR) {
        LastHit(a, full[r]);
        var last := IndexPair(a, full[r].pos + full[r].count - 1);
        HitsAreFound(ysL, ysR, group, full, a, m, last);
        assert Related(ysL[a], ysR[last.right]);
        WordsAreHits(a, items[r], full[r]);
      }
    }
  }

  lemma LastHit(a: nat, item: Item)
    requires item.count > 0
    ensures IndexPair(a, item.pos + item.count - 1) in Hits(a, item, item.count)
  {
    assert Hits(a, item, item.count)[item.count - 1] == IndexPair(a, item.pos + item.count - 1);
  }

  lemma HitWordsIn(a: nat, item: Item, full: Item, left: nat, right: nat)
    requires a < left && full.pos + full.count <= right
    requires item.count == full.count % WORD16 && item.pos == full.pos % WORD16
    ensures item.count <= full.count && AllInBuckets(WordHits(a, item, item.count), left, right)
  {
    forall pair | pair in WordHits(a, item, item.count)
      ensures InBuckets(pair, left, right)
    {
      var words := WordHits(a, item, item.count);
      var j :| 0 <= j < |words| && words[j] == pair;
    }
  }

  lemma WordsAreHits(a: nat, item: Item, full: Item)
    requires a < WORD16 && full.pos + full.count <= WORD16 && full.count < WORD16
    requires item.count == full.count % WORD16 && item.pos == full.pos % WORD16
    ensures WordHits(a, item, item.count) == Hits(a, full, full.count)
  {
  }

  class FxMatcher {
    const rmap: array<Item>
    var rmapClean: seq<nat>

    constructor ()
      ensures Valid() && fresh(rmap)
    {
      rmap := new Item[kBC](_ => Item(0, 0));
      rmapClean := [];
    }

    /** Every offset with a count is on the list of those to clear. */
    ghost predicate Valid()
      reads this, rmap
    {
      && rmap.Length == kBC
      && (forall r :: r in rmapClean ==> r < kBC)
      && forall r: nat :: r < kBC && rmap[r].count != 0 ==> r in rmapClean
    }

    /** Clears what the last call left behind. */
    method Clear()
      requires Valid()
      modifies this`rmapClean, rmap
      ensures Valid() && rmapClean == []
      ensures forall r :: 0 <= r < kBC ==> rmap[r].count == 0
    {
      for i := 0 to |rmapClean|
        invariant rmapClean == old(rmapClean) && forall r :: r in rmapClean ==> r < kBC
        invariant forall r :: 0 <= r < kBC && rmap[r].count != 0 ==> r in rmapClean[i..]
      {
        var yl := rmapClean[i];
        assert yl in rmapClean;
        rmap[yl] := rmap[yl].(count := 0);
      }
      rmapClean := [];
    }

    /** Locates the entries of the right bucket by their y offset, in 16-bit words. */
    method Locate(ysR: seq<nat>, ghost group: nat) returns (ghost full: seq<Item>)
      requires Valid() && |ysR| > 0 && SortedY(ysR) && SameGroup(ysR, group)
      modifies this`rmapClean, rmap
      ensures Valid() && Located(full, ysR, |ysR|) && InWords(rmap[..], full)
    {
      Clear();
      full := rmap[..];
      var offset := (ysR[0] / kBC) * kBC;
      for pos := 0 to |ysR|
        invariant Valid() && Located(full, ysR, pos) && InWords(rmap[..], full)
      {
        LocateNext(full, ysR, pos, group);
        WordsNext(rmap[..], full, ysR, pos, group);
        DivMod(ysR[pos], kBC);
        ghost var items := rmap[..];
        var r := ysR[pos] - offset;
        assert r == ysR[pos] % kBC;
        full := full[r := if full[r].count == 0 then Item(pos, 1) else full[r].(count := full[r].count + 1)];
        if rmap[r].count == 0 {
          rmap[r] := Item(pos % WORD16, 0);
          rmapClean := rmapClean + [r];
        }
        rmap[r] := rmap[r].(count := (rmap[r].count + 1) % WORD16);
        assert rmap[..] == items[r := rmap[r]];
      }
    }

    /** The entries of one target. */
    method Emit(posL: nat, target: nat, out: seq<IndexPair>) returns (out': seq<IndexPair>)
      requires target < rmap.Length
      ensures out' == out + WordHits(posL, rmap[target], rmap[target].count)
    {
      out' := out;
      var j := 0;
      while j < rmap[target].count
        invariant 0 <= j <= rmap[target].count
        invariant out' == out + WordHits(posL, rmap[target], j)
      {
        out' := out' + [IndexPair(posL % WORD16, (rmap[target].pos + j) % WORD16)];
        j := j + 1;
      }
    }

    /** Looks up the 64 targets of one left entry; `whole` is what has been found, apart from the words. */
    method SearchRow(ysL: seq<nat>, ysR: seq<nat>, targets: array3<nat>, parity: nat, posL: nat, r: nat,
                     found: seq<IndexPair>, ghost whole: seq<IndexPair>, ghost full: seq<Item>, ghost group: nat)
      returns (out: seq<IndexPair>, ghost whole': seq<IndexPair>)
      requires Valid() && Located(full, ysR, |ysR|) && InWords(rmap[..], full) && TablesLoaded(targets)
      requires SameGroup(ysL, group) && SameGroup(ysR, group + 1)
      requires posL < |ysL| && parity == group % 2 && r == ysL[posL] % kBC
      requires Found(ysL, ysR, whole, posL, 0) && Stored(ysL, ysR, found, whole)
      ensures Found(ysL, ysR, whole', posL + 1, 0) && Stored(ysL, ysR, out, whole')
    {
      hide Found, Located, RelatedBy, Stored, InWords;
      out, whole' := found, whole;
      for i := 0 to kExtraBitsPow
        invariant Found(ysL, ysR, whole', posL, i) && Stored(ysL, ysR, out, whole')
      {
        FoundNext(ysL, ysR, group, full, whole', posL, i);
        WordHitsOf(ysL, ysR, group, rmap[..], full, posL, i);
        var t := targets[parity, r, i];
        StoredNext(ysL, ysR, out, whole', WordHits(posL, rmap[t], rmap[t].count),
                   Hits(posL, full[t], full[t].count));
        out := Emit(posL, t, out);
        whole' := whole' + Hits(posL, full[t], full[t].count);
      }
      FoundRow(ysL, ysR, whole', posL);
    }

    /** `find_matches_ex`: whatever the matcher was used for before, it finds exactly the related pairs as
        long as they fit its 16-bit words. In any case it finds no more of them than there are, and names
        entries of the two buckets, none of them past the first 65536 of the left one. */
    method FindMatchesEx(ysL: seq<nat>, ysR: seq<nat>, targets: array3<nat>, ghost group: nat)
      returns (out: seq<IndexPair>, ghost whole: seq<IndexPair>)
      requires Valid() && TablesLoaded(targets)
      requires SameGroup(ysL, group) && SameGroup(ysR, group + 1) && SortedY(ysR)
      modifies this`rmapClean, rmap
      ensures Valid() && AllFound(ysL, ysR, whole) && |out| <= |whole|
      ensures AllInBuckets(out, |ysL|, |ysR|)
      ensures Fits(ysL, ysR) ==> out == whole
    {
      out, whole := [], [];
      if |ysL| == 0 || |ysR| == 0 {
        return;
      }
      var parity := (ysL[0] / kBC) % 2;
      ghost var full := Locate(ysR, group + 1);
      var offsetY := (ysR[0] / kBC) * kBC - kBC;
      ghost var items := rmap[..];
      for posL := 0 to |ysL|
        invariant Valid() && rmap[..] == items && Located(full, ysR, |ysR|) && InWords(items, full)
        invariant Found(ysL, ysR, whole, posL, 0) && Stored(ysL, ysR, out, whole)
      {
        DivMod(ysL[posL], kBC);
        var r := ysL[posL] - offsetY;
        assert r == ysL[posL] % kBC;
        out, whole := SearchRow(ysL, ysR, targets, parity, posL, r, out, whole, full, group);
      }
      FoundIsAll(ysL, ysR, whole);
    }
  }
}
