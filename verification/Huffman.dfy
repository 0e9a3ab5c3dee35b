/** Huffman tables from symbol weights: the code they define is complete, the single-symbol table, the
    compression table and the double-symbol table all describe it. */
module Huffman {
  import opened Powers
  import opened Wrappers

  const TABLELOG_MAX: nat := 12

  /** A symbol with a code: weight w stands for a code of tableLog + 1 - w bits. */
  datatype Sym = Sym(symbol: nat, weight: nat)

  /** `(1 << w) >> 1`: the cells of a symbol of weight w. */
  function Len(w: nat): nat {
    if w == 0 then 0 else Pow2(w - 1)
  }

  /** The cells before the i-th symbol. */
  function P(l: seq<Sym>, i: nat): nat
    requires i <= |l|
  {
    if i == 0 then 0 else P(l, i - 1) + Len(l[i - 1].weight)
  }

  /** Symbols in the order of their weights that together fill the table. */
  predicate Complete(l: seq<Sym>, tableLog: nat) {
    && (forall i, j :: 0 <= i <= j < |l| ==> 1 <= l[i].weight <= l[j].weight <= tableLog)
    && P(l, |l|) == Pow2(tableLog)
  }

  lemma {:induction false} PMonotone(l: seq<Sym>, i: nat, j: nat)
    requires i <= j <= |l|
    ensures P(l, i) <= P(l, j)
  {
    if i < j {
      PMonotone(l, i, j - 1);
    }
  }

  /** Cells before a symbol of weight at least w are a whole number of blocks of that weight. */
  lemma {:induction false} PAligned(l: seq<Sym>, tableLog: nat, s: nat, w: nat) returns (q: nat)
    requires Complete(l, tableLog) && s <= |l| && 1 <= w <= tableLog + 1 && (s < |l| ==> l[s].weight >= w)
    ensures P(l, s) == q * Pow2(w - 1)
    decreases |l| - s
  {
    if s == |l| {
      q := Pow2(tableLog - (w - 1));
      Pow2Add(tableLog - (w - 1), w - 1);
    } else {
      var q' := PAligned(l, tableLog, s + 1, w);
      var v := l[s].weight;
      Pow2Add(v - w, w - 1);
      q := Difference(q', Pow2(v - w), Pow2(w - 1), P(l, s));
    }
  }

  lemma Difference(a: nat, b: nat, d: nat, x: nat) returns (q: nat)
    requires d >= 1 && x + b * d == a * d
    ensures x == q * d
  {
    assert (a - b) * d == x;
    if a < b {
      MulMonotone(a - b, -1, d);
    }
    q := a - b;
  }

  /** The symbol whose cells a position lies in. */
  function Find(l: seq<Sym>, u: nat, n: nat): (s: nat)
    requires n <= |l| && u < P(l, n)
    ensures s < n && P(l, s) <= u < P(l, s + 1)
  {
    if u >= P(l, n - 1) then n - 1 else Find(l, u, n - 1)
  }

  // ----- the sorted list of symbols

  function CountOf(weights: seq<nat>, w: nat, n: nat): (c: nat)
    requires n <= |weights|
    ensures c <= n
  {
    if n == 0 then 0 else CountOf(weights, w, n - 1) + if weights[n - 1] == w then 1 else 0
  }

  /** Where the symbols of weight w start in the sorted list. */
  function First(weights: seq<nat>, w: nat): nat {
    if w <= 1 then 0 else First(weights, w - 1) + CountOf(weights, w - 1, |weights|)
  }

  /** The place of symbol n in the sorted list. */
  function Index(weights: seq<nat>, n: nat): nat
    requires n < |weights|
  {
    First(weights, weights[n]) + CountOf(weights, weights[n], n)
  }

  lemma {:induction false} CountMonotone(weights: seq<nat>, w: nat, a: nat, b: nat)
    requires a <= b <= |weights|
    ensures CountOf(weights, w, a) <= CountOf(weights, w, b)
  {
    if a < b {
      CountMonotone(weights, w, a, b - 1);
    }
  }

  lemma {:induction false} FirstMonotone(weights: seq<nat>, v: nat, w: nat)
    requires v <= w
    ensures First(weights, v) <= First(weights, w)
    ensures 1 <= v < w ==> First(weights, v) + CountOf(weights, v, |weights|) <= First(weights, w)
  {
    if v < w {
      FirstMonotone(weights, v, w - 1);
    }
  }

  lemma IndexInGroup(weights: seq<nat>, n: nat)
    requires n < |weights| && weights[n] >= 1
    ensures First(weights, weights[n]) <= Index(weights, n) < First(weights, weights[n] + 1)
  {
    CountMonotone(weights, weights[n], n + 1, |weights|);
  }

  lemma IndexDiffers(weights: seq<nat>, m: nat, n: nat)
    requires m < n < |weights| && weights[m] >= 1 && weights[n] >= 1
    ensures Index(weights, m) != Index(weights, n)
  {
    IndexInGroup(weights, m);
    IndexInGroup(weights, n);
    if weights[m] < weights[n] {
      FirstMonotone(weights, weights[m] + 1, weights[n]);
    } else if weights[n] < weights[m] {
      FirstMonotone(weights, weights[n] + 1, weights[m]);
    } else {
      CountMonotone(weights, weights[m], m + 1, n);
    }
  }

  /** The list holds every symbol with a code at its place, and nothing else. */
  ghost predicate IsSorted(l: seq<Sym>, weights: seq<nat>, tableLog: nat) {
    && |l| == First(weights, tableLog + 1)
    && (forall n :: 0 <= n < |weights| ==> weights[n] <= tableLog)
    && forall n: nat {:trigger Index(weights, n)} :: n < |weights| && weights[n] >= 1 ==>
         Index(weights, n) < |l| && l[Index(weights, n)] == Sym(n, weights[n])
  }

  /** The symbol of weight w with c of its weight before it. */
  function NthOf(weights: seq<nat>, w: nat, c: nat, n: nat): (m: nat)
    requires n <= |weights| && c < CountOf(weights, w, n)
    ensures m < n && weights[m] == w && CountOf(weights, w, m) == c
  {
    if c < CountOf(weights, w, n - 1) then NthOf(weights, w, c, n - 1) else n - 1
  }

  /** Every place of the list is some symbol's. */
  lemma {:induction false} PlaceOf(weights: seq<nat>, s: nat, w: nat) returns (n: nat)
    requires s < First(weights, w)
    ensures n < |weights| && 1 <= weights[n] < w && Index(weights, n) == s
  {
    if s < First(weights, w - 1) {
      n := PlaceOf(weights, s, w - 1);
    } else {
      n := NthOf(weights, w - 1, s - First(weights, w - 1), |weights|);
    }
  }

  /** What is at place s. */
  lemma EntryAt(l: seq<Sym>, weights: seq<nat>, tableLog: nat, s: nat) returns (n: nat)
    requires IsSorted(l, weights, tableLog) && s < |l|
    ensures n < |weights| && weights[n] >= 1 && Index(weights, n) == s && l[s] == Sym(n, weights[n])
    ensures First(weights, weights[n]) <= s < First(weights, weights[n] + 1)
  {
    n := PlaceOf(weights, s, tableLog + 1);
    IndexInGroup(weights, n);
  }

  lemma GroupOf(l: seq<Sym>, weights: seq<nat>, tableLog: nat, s: nat, w: nat)
    requires IsSorted(l, weights, tableLog) && s < |l| && w >= 1
    ensures s < First(weights, w) <==> l[s].weight < w
    ensures 1 <= l[s].weight <= tableLog
  {
    var n := EntryAt(l, weights, tableLog, s);
    if weights[n] < w {
      FirstMonotone(weights, weights[n] + 1, w);
    } else {
      FirstMonotone(weights, w, weights[n]);
    }
  }

  /** `(1 << w) >> 1` over all symbols, the `weightTotal` of a header. */
  function Total(weights: seq<nat>, n: nat): nat
    requires n <= |weights|
  {
    if n == 0 then 0 else Total(weights, n - 1) + Len(weights[n - 1])
  }

  /** The cells of the symbols below n with weights from 1 to w - 1. */
  function RankSum(weights: seq<nat>, w: nat, n: nat): nat
    requires n <= |weights|
  {
    if w <= 1 then 0 else RankSum(weights, w - 1, n) + CountOf(weights, w - 1, n) * Len(w - 1)
  }

  lemma OneMore(c: nat, len: nat)
    ensures (c + 1) * len == c * len + len
  {
  }

  lemma {:induction false} RankSumNext(weights: seq<nat>, w: nat, n: nat)
    requires n < |weights|
    ensures RankSum(weights, w, n + 1) == RankSum(weights, w, n) + if 1 <= weights[n] < w then Len(weights[n]) else 0
  {
    hide Len;
    if w > 1 {
      RankSumNext(weights, w - 1, n);
      OneMore(CountOf(weights, w - 1, n), Len(w - 1));
    }
  }

  lemma {:induction false} RankSumNone(weights: seq<nat>, w: nat)
    ensures RankSum(weights, w, 0) == 0
  {
    if w > 1 {
      RankSumNone(weights, w - 1);
    }
  }

  lemma {:induction false} TotalByRank(weights: seq<nat>, tableLog: nat, n: nat)
    requires n <= |weights| && forall i :: 0 <= i < n ==> weights[i] <= tableLog
    ensures Total(weights, n) == RankSum(weights, tableLog + 1, n)
  {
    if n == 0 {
      RankSumNone(weights, tableLog + 1);
    } else {
      TotalByRank(weights, tableLog, n - 1);
      RankSumNext(weights, tableLog + 1, n - 1);
    }
  }

  /** The cells before the c-th symbol of weight w. */
  lemma {:induction false} GroupStart(l: seq<Sym>, weights: seq<nat>, tableLog: nat, w: nat, c: nat)
    requires IsSorted(l, weights, tableLog) && 1 <= w <= tableLog + 1
    requires c <= if w <= tableLog then CountOf(weights, w, |weights|) else 0
    ensures First(weights, w) + c <= |l|
    ensures P(l, First(weights, w) + c) == RankSum(weights, w, |weights|) + c * Len(w)
    decreases w, c
  {
    FirstMonotone(weights, w, tableLog + 1);
    if c > 0 {
      GroupStart(l, weights, tableLog, w, c - 1);
      InGroup(l, weights, tableLog, w, c - 1);
      OneMore(c - 1, Len(w));
    } else if w > 1 {
      GroupStart(l, weights, tableLog, w - 1, CountOf(weights, w - 1, |weights|));
    }
  }

  lemma InGroup(l: seq<Sym>, weights: seq<nat>, tableLog: nat, w: nat, c: nat)
    requires IsSorted(l, weights, tableLog) && 1 <= w <= tableLog && c < CountOf(weights, w, |weights|)
    ensures First(weights, w) + c < |l| && l[First(weights, w) + c].weight == w
  {
    FirstMonotone(weights, w, tableLog + 1);
    GroupOf(l, weights, tableLog, First(weights, w) + c, w);
    GroupOf(l, weights, tableLog, First(weights, w) + c, w + 1);
  }

  /** The weights of an accepted header: they fill a table of tableLog bits. */
  ghost predicate Accepted(weights: seq<nat>, tableLog: nat) {
    && 1 <= tableLog <= 12 && (forall n :: 0 <= n < |weights| ==> weights[n] <= tableLog)
    && Total(weights, |weights|) == Pow2(tableLog)
  }

  lemma SortedIsComplete(l: seq<Sym>, weights: seq<nat>, tableLog: nat)
    requires IsSorted(l, weights, tableLog) && Accepted(weights, tableLog)
    ensures Complete(l, tableLog)
  {
    TotalByRank(weights, tableLog, |weights|);
    GroupStart(l, weights, tableLog, tableLog + 1, 0);
    forall i: nat, j: nat | i <= j < |l|
      ensures 1 <= l[i].weight <= l[j].weight <= tableLog
    {
      GroupOf(l, weights, tableLog, j, 1);
      GroupOf(l, weights, tableLog, j, l[j].weight + 1);
      GroupOf(l, weights, tableLog, i, l[j].weight + 1);
      GroupOf(l, weights, tableLog, i, 1);
    }
  }

  // ----- accepting a header

  lemma {:induction false} TotalPrefix(a: seq<nat>, b: seq<nat>, n: nat)
    requires n <= |a| && a <= b
    ensures Total(a, n) == Total(b, n)
  {
    if n > 0 {
      TotalPrefix(a, b, n - 1);
    }
  }

  lemma {:induction false} TotalAt(weights: seq<nat>, i: nat, n: nat)
    requires i < n <= |weights|
    ensures Len(weights[i]) <= Total(weights, n)
  {
    if i < n - 1 {
      TotalAt(weights, i, n - 1);
    }
  }

  lemma WeightFits(w: nat, tableLog: nat)
    requires Len(w) <= Pow2(tableLog)
    ensures w <= tableLog + 1
    ensures Len(w) < Pow2(tableLog) ==> w <= tableLog
  {
    if w > tableLog {
      Pow2Monotone(tableLog, w - 1);
      if w > tableLog + 1 {
        Pow2Strict(tableLog, w - 1);
      }
    }
  }

  /** The weight and the table size that a list of weights leaves for the last symbol. */
  ghost predicate Implied(listed: seq<nat>, last: nat, tableLog: nat) {
    && (forall n :: 0 <= n < |listed| ==> listed[n] < 12)
    && last >= 1 && Accepted(listed + [last], tableLog)
    && CountOf(listed + [last], 1, |listed| + 1) >= 2 && CountOf(listed + [last], 1, |listed| + 1) % 2 == 0
  }

  lemma OnlyOne(listed: seq<nat>, last: nat, tableLog: nat)
    requires last >= 1 && Accepted(listed + [last], tableLog)
    ensures Total(listed, |listed|) > 0 && Pow2(tableLog) == Total(listed, |listed|) + Len(last)
    ensures tableLog == Log2(Total(listed, |listed|)) + 1 && 1 <= tableLog <= TABLELOG_MAX
    ensures last == Log2(Len(last)) + 1 && Len(last) == Pow2(last - 1)
  {
    var weights := listed + [last];
    TotalPrefix(listed, weights, |listed|);
    TotalNext(weights, |listed|);
    hide Accepted, Total, Pow2;
    AcceptedBounds(weights, tableLog);
    assert weights[|listed|] == last <= tableLog;
    TopBits(Total(listed, |listed|), last, tableLog);
  }

  lemma TopBits(total: nat, last: nat, tableLog: nat)
    requires 1 <= last <= tableLog && Pow2(tableLog) == total + Pow2(last - 1)
    ensures total > 0 && tableLog == Log2(total) + 1 && last == Log2(Pow2(last - 1)) + 1
  {
    hide Pow2, Log2;
    Pow2Monotone(last - 1, tableLog - 1);
    TwiceBefore(tableLog);
    Log2Unique(total, tableLog - 1);
    Log2Unique(Pow2(last - 1), last - 1);
  }

  ghost predicate Fits(total: nat, last: nat, tableLog: nat) {
    && total > 0 && Pow2(tableLog) > total && tableLog == Log2(total) + 1 <= TABLELOG_MAX
    && var rest: nat := Pow2(tableLog) - total; Pow2(Log2(rest)) == rest && last == Log2(rest) + 1
  }

  lemma OnlyOnes(listed: seq<nat>)
    ensures forall last: nat, tableLog: nat :: Implied(listed, last, tableLog) ==>
              Fits(Total(listed, |listed|), last, tableLog)
  {
    hide Accepted, Total, Pow2, CountOf, Len;
    forall last: nat, tableLog: nat | Implied(listed, last, tableLog)
      ensures Fits(Total(listed, |listed|), last, tableLog)
    {
      OnlyOne(listed, last, tableLog);
    }
  }

  lemma TwiceBefore(k: nat)
    requires k >= 1
    ensures Pow2(k) == 2 * Pow2(k - 1)
  {
  }

  lemma TotalNext(weights: seq<nat>, n: nat)
    requires n < |weights|
    ensures Total(weights, n + 1) == Total(weights, n) + Len(weights[n])
  {
  }

  /** The statistics part of HUF_readStats, on the weights a header lists: it succeeds exactly when some
      weight for the last symbol completes the code. */
  method ReadStats(listed: seq<nat>) returns (r: Result<(seq<nat>, nat)>)
    ensures r.Ok? ==> |r.value.0| == |listed| + 1 && r.value.0 == listed + [r.value.0[|listed|]]
    ensures r.Ok? ==> Implied(listed, r.value.0[|listed|], r.value.1)
    ensures r.Err? ==> r.error == "corruption_detected"
                       && forall last: nat, tableLog: nat :: !Implied(listed, last, tableLog)
  {
    hide Accepted, Pow2, Total, CountOf, Len;
    var fits, weightTotal := SumWeights(listed);
    OnlyOnes(listed);
    if !fits || weightTotal == 0 {
      return Err("corruption_detected");
    }
    var tableLog := Log2(weightTotal) + 1;
    if tableLog > TABLELOG_MAX {
      return Err("corruption_detected");
    }
    TwiceBefore(tableLog);
    var rest := Pow2(tableLog) - weightTotal;
    if Pow2(Log2(rest)) != rest {
      return Err("corruption_detected");
    }
    var lastWeight := Log2(rest) + 1;
    var weights := listed + [lastWeight];
    var ones := CountWeight(weights, 1);
    if ones < 2 || ones % 2 == 1 {
      return Err("corruption_detected");
    }
    LenOf(lastWeight);
    LastWeightFits(listed, lastWeight, tableLog);
    r := Ok((weights, tableLog));
  }

  /** The collection of the weight total, which stops at a weight out of range. */
  method SumWeights(listed: seq<nat>) returns (fits: bool, weightTotal: nat)
    ensures fits <==> forall n :: 0 <= n < |listed| ==> listed[n] < TABLELOG_MAX
    ensures fits ==> weightTotal == Total(listed, |listed|)
  {
    weightTotal := 0;
    for n := 0 to |listed|
      invariant weightTotal == Total(listed, n)
      invariant forall i :: 0 <= i < n ==> listed[i] < TABLELOG_MAX
    {
      if listed[n] >= TABLELOG_MAX {
        return false, weightTotal;
      }
      weightTotal := weightTotal + Len(listed[n]);
    }
    fits := true;
  }

  lemma LenOf(w: nat)
    requires w >= 1
    ensures Len(w) == Pow2(w - 1)
  {
  }

  method CountWeight(weights: seq<nat>, w: nat) returns (c: nat)
    ensures c == CountOf(weights, w, |weights|)
  {
    c := 0;
    for n := 0 to |weights|
      invariant c == CountOf(weights, w, n)
    {
      if weights[n] == w {
        c := c + 1;
      }
    }
  }

  lemma LastWeightFits(listed: seq<nat>, last: nat, tableLog: nat)
    requires 1 <= tableLog <= TABLELOG_MAX && last >= 1
    requires 0 < Total(listed, |listed|) < Pow2(tableLog) && Total(listed, |listed|) + Len(last) == Pow2(tableLog)
    ensures Accepted(listed + [last], tableLog)
  {
    hide Pow2, Total, Len;
    var weights := listed + [last];
    TotalPrefix(listed, weights, |listed|);
    TotalNext(weights, |listed|);
    forall n | 0 <= n < |weights|
      ensures weights[n] <= tableLog
    {
      if n < |listed| {
        TotalAt(listed, n, |listed|);
      }
      WeightFits(weights[n], tableLog);
    }
  }

  // ----- the single-symbol table

  datatype Cell1 = Cell1(symbol: nat, nbBits: nat)

  /** Every cell names the symbol among whose cells it lies. */
  ghost predicate IsX1(cells: seq<Cell1>, l: seq<Sym>, tableLog: nat) {
    && |cells| == Pow2(tableLog)
    && forall s: nat, u: nat :: s < |l| && P(l, s) <= u < P(l, s + 1) && u < |cells| ==> cells[u] == CellOf(l[s], tableLog)
  }

  function CellOf(sym: Sym, tableLog: nat): Cell1 {
    Cell1(sym.symbol, if sym.weight <= tableLog + 1 then tableLog + 1 - sym.weight else 0)
  }

  /** The table covers all cells: each lies among the cells of exactly one symbol. */
  lemma CellsCovered(l: seq<Sym>, tableLog: nat, u: nat) returns (s: nat)
    requires Complete(l, tableLog) && u < Pow2(tableLog)
    ensures s < |l| && P(l, s) <= u < P(l, s + 1)
    ensures forall t: nat :: t < |l| && P(l, t) <= u < P(l, t + 1) ==> t == s
  {
    s := Find(l, u, |l|);
    forall t: nat | t < |l| && P(l, t) <= u < P(l, t + 1)
      ensures t == s
    {
      if t < s {
        PMonotone(l, t + 1, s);
      } else if s < t {
        PMonotone(l, s + 1, t);
      }
    }
  }

  /** `rankVal` after the starting values of the ranks have been computed. */
  ghost predicate RankStarts(rankVal: seq<nat>, weights: seq<nat>, tableLog: nat, l: seq<Sym>, n: nat)
    requires n <= |weights|
  {
    && |rankVal| == tableLog + 1
    && forall w :: 1 <= w <= tableLog ==>
         First(weights, w) + CountOf(weights, w, n) <= |l| && rankVal[w] == P(l, First(weights, w) + CountOf(weights, w, n))
  }

  lemma {:induction false} NoneBefore(weights: seq<nat>, w: nat)
    ensures CountOf(weights, w, 0) == 0
  {
  }

  /** The starting value of each rank. */
  method StartRanks(weights: seq<nat>, tableLog: nat, ghost l: seq<Sym>) returns (rankVal: seq<nat>)
    requires IsSorted(l, weights, tableLog) && Accepted(weights, tableLog)
    ensures RankStarts(rankVal, weights, tableLog, l, 0)
  {
    hide IsSorted, Accepted, P, First, CountOf, Pow2, RankSum;
    rankVal := seq(tableLog + 1, _ => 0);
    var nextRankStart, w := 0, 1;
    NoRanks(weights);
    while w < tableLog + 1
      invariant 1 <= w <= tableLog + 1 && |rankVal| == tableLog + 1 && nextRankStart == RankSum(weights, w, |weights|)
      invariant forall v :: 1 <= v < w ==> rankVal[v] == RankSum(weights, v, |weights|)
    {
      var stat := CountWeight(weights, w);
      var current := nextRankStart;
      nextRankStart := nextRankStart + stat * Pow2(w - 1);
      RankSumStep(weights, w);
      rankVal := rankVal[w := current];
      w := w + 1;
    }
    forall v | 1 <= v <= tableLog
      ensures First(weights, v) + CountOf(weights, v, 0) <= |l|
      ensures rankVal[v] == P(l, First(weights, v) + CountOf(weights, v, 0))
    {
      NoneBefore(weights, v);
      GroupStart(l, weights, tableLog, v, 0);
    }
  }

  lemma NoRanks(weights: seq<nat>)
    ensures RankSum(weights, 1, |weights|) == 0
  {
  }

  lemma RankSumStep(weights: seq<nat>, w: nat)
    requires w >= 1
    ensures RankSum(weights, w + 1, |weights|) == RankSum(weights, w, |weights|) + CountOf(weights, w, |weights|) * Pow2(w - 1)
  {
  }

  /** The cells of the symbols below n are filled. */
  ghost predicate Filled1(cells: seq<Cell1>, l: seq<Sym>, weights: seq<nat>, tableLog: nat, n: nat)
    requires IsSorted(l, weights, tableLog) && n <= |weights|
  {
    forall m: nat, u: nat {:trigger Index(weights, m), cells[u]} ::
      (m < n && weights[m] >= 1 && u < |cells| && P(l, Index(weights, m)) <= u < P(l, Index(weights, m) + 1))
      ==> cells[u] == CellOf(Sym(m, weights[m]), tableLog)
  }

  lemma SymbolCells(l: seq<Sym>, weights: seq<nat>, tableLog: nat, n: nat)
    requires IsSorted(l, weights, tableLog) && Accepted(weights, tableLog) && n < |weights| && weights[n] >= 1
    ensures Index(weights, n) < |l|
            && P(l, Index(weights, n) + 1) == P(l, Index(weights, n)) + Len(weights[n]) <= Pow2(tableLog)
  {
    SortedIsComplete(l, weights, tableLog);
    PMonotone(l, Index(weights, n) + 1, |l|);
  }

  lemma DifferentCells(l: seq<Sym>, weights: seq<nat>, tableLog: nat, m: nat, n: nat)
    requires IsSorted(l, weights, tableLog) && m < n < |weights| && weights[m] >= 1 && weights[n] >= 1
    ensures Index(weights, m) < |l| && Index(weights, n) < |l|
    ensures P(l, Index(weights, m) + 1) <= P(l, Index(weights, n)) || P(l, Index(weights, n) + 1) <= P(l, Index(weights, m))
  {
    IndexDiffers(weights, m, n);
    if Index(weights, m) < Index(weights, n) {
      PMonotone(l, Index(weights, m) + 1, Index(weights, n));
    } else {
      PMonotone(l, Index(weights, n) + 1, Index(weights, m));
    }
  }

  lemma FillNext(before: seq<Cell1>, after: seq<Cell1>, l: seq<Sym>, weights: seq<nat>, tableLog: nat, n: nat)
    requires IsSorted(l, weights, tableLog) && Accepted(weights, tableLog) && n < |weights| && weights[n] >= 1
    requires Filled1(before, l, weights, tableLog, n) && |before| == |after|
    requires Index(weights, n) < |l|
    requires forall u :: 0 <= u < |after| ==>
               after[u] == if P(l, Index(weights, n)) <= u < P(l, Index(weights, n) + 1) then CellOf(Sym(n, weights[n]), tableLog)
                           else before[u]
    ensures Filled1(after, l, weights, tableLog, n + 1)
  {
    forall m: nat, u: nat | m < n + 1 && weights[m] >= 1 && u < |after|
                            && P(l, Index(weights, m)) <= u < P(l, Index(weights, m) + 1)
      ensures after[u] == CellOf(Sym(m, weights[m]), tableLog)
    {
      if m < n {
        DifferentCells(l, weights, tableLog, m, n);
      }
    }
  }

  /** The fill of HUF_readDTableX1_wksp: every cell is written, once, with the symbol it belongs to. */
  method ReadDTableX1(weights: seq<nat>, tableLog: nat, ghost l: seq<Sym>) returns (dt: array<Cell1>)
    requires IsSorted(l, weights, tableLog) && Accepted(weights, tableLog)
    ensures IsX1(dt[..], l, tableLog)
  {
    hide IsSorted, Accepted, Pow2, P, Filled1, CountOf, First;
    AcceptedBounds(weights, tableLog);
    dt := new Cell1[Pow2(tableLog)](_ => Cell1(0, 0));
    var rankVal := StartRanks(weights, tableLog, l);
    NothingFilled(dt[..], l, weights, tableLog);
    for n := 0 to |weights|
      invariant RankStarts(rankVal, weights, tableLog, l, n) && Filled1(dt[..], l, weights, tableLog, n)
    {
      var w := weights[n];
      var length := Len(w);
      if w >= 1 {
        SymbolCells(l, weights, tableLog, n);
        var start := rankVal[w];
        ghost var before := dt[..];
        FillCells(dt, start, start + length, Cell1(n, tableLog + 1 - w));
        FillNext(before, dt[..], l, weights, tableLog, n);
        rankVal := rankVal[w := rankVal[w] + length];
      } else {
        FillSkip(dt[..], l, weights, tableLog, n);
      }
      RanksNext(weights, tableLog, l, n);
    }
    AllFilled(dt[..], l, weights, tableLog);
  }

  lemma AcceptedBounds(weights: seq<nat>, tableLog: nat)
    requires Accepted(weights, tableLog)
    ensures forall n :: 0 <= n < |weights| ==> weights[n] <= tableLog
    ensures 1 <= tableLog <= TABLELOG_MAX
  {
  }

  lemma RanksNext(weights: seq<nat>, tableLog: nat, l: seq<Sym>, n: nat)
    requires n < |weights|
    ensures forall w :: CountOf(weights, w, n + 1) == CountOf(weights, w, n) + if weights[n] == w then 1 else 0
    ensures weights[n] >= 1 ==> Index(weights, n) == First(weights, weights[n]) + CountOf(weights, weights[n], n)
  {
  }

  lemma NothingFilled(cells: seq<Cell1>, l: seq<Sym>, weights: seq<nat>, tableLog: nat)
    requires IsSorted(l, weights, tableLog)
    ensures Filled1(cells, l, weights, tableLog, 0)
  {
  }

  lemma FillSkip(cells: seq<Cell1>, l: seq<Sym>, weights: seq<nat>, tableLog: nat, n: nat)
    requires IsSorted(l, weights, tableLog) && n < |weights| && weights[n] == 0
             && Filled1(cells, l, weights, tableLog, n)
    ensures Filled1(cells, l, weights, tableLog, n + 1)
  {
  }

  lemma AllFilled(cells: seq<Cell1>, l: seq<Sym>, weights: seq<nat>, tableLog: nat)
    requires IsSorted(l, weights, tableLog) && Filled1(cells, l, weights, tableLog, |weights|)
             && |cells| == Pow2(tableLog)
    ensures IsX1(cells, l, tableLog)
  {
    forall s: nat, u: nat | s < |l| && P(l, s) <= u < P(l, s + 1) && u < |cells|
      ensures cells[u] == CellOf(l[s], tableLog)
    {
      var n := EntryAt(l, weights, tableLog, s);
      assert Index(weights, n) == s;
    }
  }

  /** `for (u = start; u < end; u++) dt[u] = D;` */
  method FillCells(dt: array<Cell1>, start: nat, end: nat, d: Cell1)
    requires start <= end <= dt.Length
    modifies dt
    ensures forall u :: 0 <= u < dt.Length ==> dt[u] == if start <= u < end then d else old(dt[u])
  {
    for u := start to end
      invariant forall i :: 0 <= i < dt.Length ==> dt[i] == if start <= i < u then d else old(dt[i])
    {
      dt[u] := d;
    }
  }

  // ----- the compression table names the same cells

  /** The code of a symbol, `nbBits` long, is what its cells have in common from the top. */
  ghost predicate CodesName(nbBits: seq<nat>, vals: seq<nat>, l: seq<Sym>, weights: seq<nat>, tableLog: nat)
    requires IsSorted(l, weights, tableLog)
  {
    && |nbBits| == |vals| == |weights|
    && (forall n: nat :: n < |weights| ==> nbBits[n] == tableLog + 1 - weights[n])
    && forall n: nat {:trigger Index(weights, n)} :: n < |weights| && weights[n] >= 1 ==>
         vals[n] * Len(weights[n]) == P(l, Index(weights, n))
  }

  /** A cell's top bits are the code of the symbol that the single-symbol table names there. */
  lemma CodeOfCell(nbBits: seq<nat>, vals: seq<nat>, l: seq<Sym>, weights: seq<nat>, tableLog: nat, cells: seq<Cell1>,
                   u: nat, n: nat)
    requires IsSorted(l, weights, tableLog) && Accepted(weights, tableLog)
             && CodesName(nbBits, vals, l, weights, tableLog)
    requires IsX1(cells, l, tableLog) && u < Pow2(tableLog) && n < |weights| && weights[n] >= 1
    ensures nbBits[n] <= tableLog
    ensures cells[u] == Cell1(n, nbBits[n]) <==> Shr(u, tableLog - nbBits[n]) == vals[n]
  {
    hide IsSorted, Accepted, P, First, CountOf, Pow2, Shr, IsX1;
    AcceptedBounds(weights, tableLog);
    SymbolCells(l, weights, tableLog, n);
    var s := Index(weights, n);
    CellNames(l, weights, tableLog, cells, u, n);
    BlockOf(u, vals[n], weights[n] - 1);
    assert vals[n] * Pow2(weights[n] - 1) == P(l, s);
  }

  lemma CellNames(l: seq<Sym>, weights: seq<nat>, tableLog: nat, cells: seq<Cell1>, u: nat, n: nat)
    requires IsSorted(l, weights, tableLog) && Accepted(weights, tableLog) && IsX1(cells, l, tableLog)
    requires u < Pow2(tableLog) && n < |weights| && weights[n] >= 1
    ensures Index(weights, n) < |l| && |cells| == Pow2(tableLog) && weights[n] <= tableLog
    ensures cells[u] == Cell1(n, tableLog + 1 - weights[n]) <==> P(l, Index(weights, n)) <= u < P(l, Index(weights, n) + 1)
  {
    SortedIsComplete(l, weights, tableLog);
    var s := CellsCovered(l, tableLog, u);
    var m := EntryAt(l, weights, tableLog, s);
    hide P, First, CountOf, Pow2, Accepted;
    assert Index(weights, n) < |l|;
    assert cells[u] == CellOf(l[s], tableLog);
    if P(l, Index(weights, n)) <= u < P(l, Index(weights, n) + 1) {
      assert Index(weights, n) == s;
      assert l[s] == Sym(n, weights[n]);
    } else {
      assert m != n;
    }
  }

  /** The numbers whose bits from k on spell q. */
  lemma BlockOf(u: nat, q: nat, k: nat)
    ensures Shr(u, k) == q <==> q * Pow2(k) <= u < q * Pow2(k) + Pow2(k)
  {
    ShrIsDiv(u, k);
    DivMod(u, Pow2(k));
    if q * Pow2(k) <= u < q * Pow2(k) + Pow2(k) {
      DivModUnique(u, q, u - q * Pow2(k), Pow2(k));
    }
  }

  lemma HalfAligned(min: nat, count: nat, w: nat, sum: nat, q: nat)
    requires w >= 1 && (min + count) * Pow2(w - 1) == sum && sum == q * Pow2(w)
    ensures (min + count) / 2 * Pow2(w) == sum
  {
    var p := Pow2(w - 1);
    assert q * (2 * p) == (2 * q) * p;
    SameFactor(min + count, 2 * q, p);
  }

  lemma SameFactor(a: nat, b: nat, p: nat)
    requires p >= 1 && a * p == b * p
    ensures a == b
  {
    assert (a + 1) * p == a * p + p;
    assert (b + 1) * p == b * p + p;
    if a < b {
      MulMonotone(a + 1, b, p);
    } else if b < a {
      MulMonotone(b + 1, a, p);
    }
  }

  lemma SumAligned(l: seq<Sym>, weights: seq<nat>, tableLog: nat, w: nat) returns (q: nat)
    requires IsSorted(l, weights, tableLog) && Accepted(weights, tableLog) && 1 <= w <= tableLog + 1
    ensures RankSum(weights, w, |weights|) == q * Pow2(w - 1)
  {
    SortedIsComplete(l, weights, tableLog);
    GroupStart(l, weights, tableLog, w, 0);
    if First(weights, w) < |l| {
      GroupOf(l, weights, tableLog, First(weights, w), w);
    }
    q := PAligned(l, tableLog, First(weights, w), w);
  }

  /** The starting value within each rank, from the longest codes down. */
  method StartVals(weights: seq<nat>, tableLog: nat, ghost l: seq<Sym>) returns (valPerRank: seq<nat>)
    requires IsSorted(l, weights, tableLog) && Accepted(weights, tableLog)
    ensures |valPerRank| == tableLog + 2
    ensures forall w {:trigger RankSum(weights, w, |weights|)} :: 1 <= w <= tableLog ==>
              valPerRank[tableLog + 1 - w] * Pow2(w - 1) == RankSum(weights, w, |weights|)
  {
    hide IsSorted, Accepted, CountOf, Pow2, RankSum;
    valPerRank := seq(tableLog + 2, _ => 0);
    var min, n := 0, tableLog;
    NoRanks(weights);
    while n > 0
      invariant 0 <= n <= tableLog && |valPerRank| == tableLog + 2
      invariant min * Pow2(tableLog - n) == RankSum(weights, tableLog + 1 - n, |weights|)
      invariant forall w {:trigger RankSum(weights, w, |weights|)} :: 1 <= w <= tableLog - n ==>
                  valPerRank[tableLog + 1 - w] * Pow2(w - 1) == RankSum(weights, w, |weights|)
    {
      ghost var w: nat := tableLog + 1 - n;
      var nb := CountWeight(weights, tableLog + 1 - n);
      valPerRank := valPerRank[n := min];
      RankSumStep(weights, w);
      ghost var q := SumAligned(l, weights, tableLog, w + 1);
      assert (min + nb) * Pow2(w - 1) == min * Pow2(w - 1) + nb * Pow2(w - 1);
      HalfAligned(min, nb, w, RankSum(weights, w + 1, |weights|), q);
      min := (min + nb) / 2;
      n := n - 1;
    }
  }

  /** The code assignment of HUF_readCTable. */
  method AssignCodes(weights: seq<nat>, tableLog: nat, ghost l: seq<Sym>) returns (nbBits: seq<nat>, vals: seq<nat>)
    requires IsSorted(l, weights, tableLog) && Accepted(weights, tableLog)
    ensures CodesName(nbBits, vals, l, weights, tableLog)
  {
    AcceptedBounds(weights, tableLog);
    var valPerRank := StartVals(weights, tableLog, l);
    hide Accepted, Pow2, RankSum, P;
    ghost var start := valPerRank;
    nbBits, vals := [], [];
    for n := 0 to |weights|
      invariant |nbBits| == |vals| == n && |valPerRank| == tableLog + 2
      invariant forall m: nat :: m < n ==> nbBits[m] == tableLog + 1 - weights[m]
      invariant forall w :: 1 <= w <= tableLog ==>
                  valPerRank[tableLog + 1 - w] == start[tableLog + 1 - w] + CountOf(weights, w, n)
      invariant forall m: nat {:trigger Index(weights, m)} :: m < n && weights[m] >= 1 ==>
                  vals[m] * Len(weights[m]) == P(l, Index(weights, m))
    {
      var nb := tableLog + 1 - weights[n];
      if weights[n] >= 1 {
        CodeStart(l, weights, tableLog, n, start[nb]);
      }
      nbBits := nbBits + [nb];
      vals := vals + [valPerRank[nb]];
      valPerRank := valPerRank[nb := valPerRank[nb] + 1];
    }
  }

  lemma CodeStart(l: seq<Sym>, weights: seq<nat>, tableLog: nat, n: nat, start: nat)
    requires IsSorted(l, weights, tableLog) && Accepted(weights, tableLog) && n < |weights| && weights[n] >= 1
    requires start * Pow2(weights[n] - 1) == RankSum(weights, weights[n], |weights|)
    ensures Index(weights, n) < |l|
    ensures (start + CountOf(weights, weights[n], n)) * Len(weights[n]) == P(l, Index(weights, n))
  {
    hide IsSorted, Accepted, P, First, CountOf, RankSum, Pow2;
    var w, c := weights[n], CountOf(weights, weights[n], n);
    AcceptedBounds(weights, tableLog);
    CountMonotone(weights, w, n, |weights|);
    GroupStart(l, weights, tableLog, w, c);
    SymbolCells(l, weights, tableLog, n);
    SumTimes(start, c, Len(w));
  }
}
