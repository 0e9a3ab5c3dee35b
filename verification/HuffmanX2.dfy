/** The double-symbol Huffman decoding table: each of its lookups is one or two single-symbol lookups. */
module HuffmanX2 {
  import opened Powers
  import opened Wrappers
  import opened Huffman

  /** The symbols a cell decodes (`second` only when `length` is 2) and the bits they take. */
  datatype Cell2 = Cell2(first: nat, second: nat, nbBits: nat, length: nat)

  // ----- sorting the symbols by weight

  /** The symbols below n with weights from 1 to w - 1. */
  function RankCount(weights: seq<nat>, w: nat, n: nat): nat
    requires n <= |weights|
  {
    if w <= 1 then 0 else RankCount(weights, w - 1, n) + CountOf(weights, w - 1, n)
  }

  lemma {:induction false} RankCountNext(weights: seq<nat>, w: nat, n: nat)
    requires n < |weights|
    ensures RankCount(weights, w, n + 1) == RankCount(weights, w, n) + if 1 <= weights[n] < w then 1 else 0
  {
    if w > 1 {
      RankCountNext(weights, w - 1, n);
    }
  }

  lemma {:induction false} NobodyRanked(weights: seq<nat>, w: nat)
    ensures RankCount(weights, w, 0) == 0
  {
    if w > 1 {
      NobodyRanked(weights, w - 1);
    }
  }

  lemma {:induction false} EveryoneRanked(weights: seq<nat>, tableLog: nat, n: nat)
    requires n <= |weights| && forall i :: 0 <= i < n ==> weights[i] <= tableLog
    ensures RankCount(weights, tableLog + 1, n) + CountOf(weights, 0, n) == n
  {
    if n == 0 {
      NobodyRanked(weights, tableLog + 1);
    } else {
      EveryoneRanked(weights, tableLog, n - 1);
      RankCountNext(weights, tableLog + 1, n - 1);
    }
  }

  lemma {:induction false} FirstIsRankCount(weights: seq<nat>, w: nat)
    ensures First(weights, w) == RankCount(weights, w, |weights|)
  {
    if w > 1 {
      FirstIsRankCount(weights, w - 1);
    }
  }

  /** The place of any symbol in the sorting buffer: those of weight zero come last. */
  function Place(weights: seq<nat>, tableLog: nat, n: nat): nat
    requires n < |weights|
  {
    if weights[n] == 0 then First(weights, tableLog + 1) + CountOf(weights, 0, n) else Index(weights, n)
  }

  lemma PlaceFits(weights: seq<nat>, tableLog: nat, n: nat)
    requires n < |weights| && forall i :: 0 <= i < |weights| ==> weights[i] <= tableLog
    ensures Place(weights, tableLog, n) < |weights|
    ensures weights[n] >= 1 <==> Place(weights, tableLog, n) < First(weights, tableLog + 1)
    ensures First(weights, tableLog + 1) <= |weights|
  {
    EveryoneRanked(weights, tableLog, |weights|);
    FirstIsRankCount(weights, tableLog + 1);
    CountMonotone(weights, weights[n], n + 1, |weights|);
    if weights[n] >= 1 {
      IndexInGroup(weights, n);
      FirstMonotone(weights, weights[n] + 1, tableLog + 1);
    }
  }

  lemma PlacesDiffer(weights: seq<nat>, tableLog: nat, m: nat, n: nat)
    requires m < n < |weights| && forall i :: 0 <= i < |weights| ==> weights[i] <= tableLog
    ensures Place(weights, tableLog, m) != Place(weights, tableLog, n)
  {
    PlaceFits(weights, tableLog, m);
    PlaceFits(weights, tableLog, n);
    if weights[m] >= 1 && weights[n] >= 1 {
      IndexDiffers(weights, m, n);
    } else if weights[m] == 0 && weights[n] == 0 {
      CountMonotone(weights, 0, m + 1, n);
    }
  }

  /** The next free place of each weight, after n symbols. */
  ghost predicate PlacesNext(rankStart: seq<nat>, weights: seq<nat>, tableLog: nat, maxW: nat, n: nat)
    requires n <= |weights|
  {
    && |rankStart| == maxW + 1 && rankStart[0] == First(weights, tableLog + 1) + CountOf(weights, 0, n)
    && forall w :: 1 <= w <= maxW ==> rankStart[w] == First(weights, w) + CountOf(weights, w, n)
  }

  ghost predicate IsMaxWeight(weights: seq<nat>, maxW: nat, tableLog: nat) {
    && 1 <= maxW <= tableLog && (forall n :: 0 <= n < |weights| ==> weights[n] <= maxW)
    && First(weights, maxW) < First(weights, maxW + 1) == First(weights, tableLog + 1)
  }

  lemma {:induction false} SomeoneRanked(weights: seq<nat>, w: nat)
    requires forall v :: 1 <= v < w ==> CountOf(weights, v, |weights|) == 0
    ensures RankSum(weights, w, |weights|) == 0
  {
    if w > 1 {
      SomeoneRanked(weights, w - 1);
    }
  }

  lemma {:induction false} CountedOnce(weights: seq<nat>, n: nat, m: nat)
    requires n < m <= |weights|
    ensures CountOf(weights, weights[n], m) >= 1
  {
    if n < m - 1 {
      CountedOnce(weights, n, m - 1);
    }
  }

  lemma {:induction false} NoneAbove(weights: seq<nat>, v: nat, w: nat)
    requires 1 <= v <= w && forall i :: v <= i < w ==> CountOf(weights, i, |weights|) == 0
    ensures First(weights, v) == First(weights, w)
  {
    if v < w {
      NoneAbove(weights, v, w - 1);
    }
  }

  lemma SomeWeight(weights: seq<nat>, tableLog: nat)
    requires Accepted(weights, tableLog)
    ensures exists v :: 1 <= v <= tableLog && CountOf(weights, v, |weights|) > 0
  {
    TotalByRank(weights, tableLog, |weights|);
    if forall v :: 1 <= v <= tableLog ==> CountOf(weights, v, |weights|) == 0 {
      SomeoneRanked(weights, tableLog + 1);
    }
  }

  /** `for (maxW = tableLog; rankStats[maxW]==0; maxW--) {}`, which stops before zero. */
  method FindMaxWeight(weights: seq<nat>, tableLog: nat) returns (maxW: nat)
    requires Accepted(weights, tableLog)
    ensures IsMaxWeight(weights, maxW, tableLog)
  {
    hide First, CountOf, Accepted;
    SomeWeight(weights, tableLog);
    ghost var v :| 1 <= v <= tableLog && CountOf(weights, v, |weights|) > 0;
    maxW := tableLog;
    var stat := CountWeight(weights, maxW);
    while stat == 0
      invariant v <= maxW <= tableLog && stat == CountOf(weights, maxW, |weights|)
      invariant forall i :: maxW < i <= tableLog ==> CountOf(weights, i, |weights|) == 0
      decreases maxW
    {
      maxW := maxW - 1;
      stat := CountWeight(weights, maxW);
    }
    MaxFound(weights, tableLog, maxW);
  }

  lemma MaxFound(weights: seq<nat>, tableLog: nat, maxW: nat)
    requires Accepted(weights, tableLog) && 1 <= maxW <= tableLog && CountOf(weights, maxW, |weights|) > 0
    requires forall i :: maxW < i <= tableLog ==> CountOf(weights, i, |weights|) == 0
    ensures IsMaxWeight(weights, maxW, tableLog)
  {
    NoneAbove(weights, maxW + 1, tableLog + 1);
    forall n | 0 <= n < |weights|
      ensures weights[n] <= maxW
    {
      CountedOnce(weights, n, |weights|);
    }
  }

  /** The start of each weight in the sorted list, with weight zero at the end. */
  method StartPlaces(weights: seq<nat>, tableLog: nat, maxW: nat) returns (rankStart: seq<nat>, sizeOfSort: nat)
    requires IsMaxWeight(weights, maxW, tableLog)
    ensures sizeOfSort == First(weights, tableLog + 1) && PlacesNext(rankStart, weights, tableLog, maxW, 0)
  {
    hide First, CountOf;
    rankStart := seq(maxW + 1, _ => 0);
    var w := 1;
    sizeOfSort := 0;
    FirstStart(weights);
    while w < maxW + 1
      invariant 1 <= w <= maxW + 1 && |rankStart| == maxW + 1 && sizeOfSort == First(weights, w)
      invariant forall v :: 1 <= v < w ==> rankStart[v] == First(weights, v)
    {
      var stat := CountWeight(weights, w);
      rankStart := rankStart[w := sizeOfSort];
      FirstNext(weights, w);
      sizeOfSort := sizeOfSort + stat;
      w := w + 1;
    }
    rankStart := rankStart[0 := sizeOfSort];
    forall v | 0 <= v <= maxW
      ensures CountOf(weights, v, 0) == 0
    {
      NoneBefore(weights, v);
    }
  }

  lemma FirstStart(weights: seq<nat>)
    ensures First(weights, 1) == 0
  {
  }

  lemma FirstNext(weights: seq<nat>, w: nat)
    requires w >= 1
    ensures First(weights, w + 1) == First(weights, w) + CountOf(weights, w, |weights|)
  {
  }

  /** The symbols below n are at their places. */
  ghost predicate Placed(buffer: seq<Sym>, weights: seq<nat>, tableLog: nat, n: nat)
    requires n <= |weights|
  {
    forall m: nat {:trigger Place(weights, tableLog, m)} :: m < n ==>
      Place(weights, tableLog, m) < |buffer| && buffer[Place(weights, tableLog, m)] == Sym(m, weights[m])
  }

  /** The sort of HUF_readDTableX2_wksp; the rank starts end where the next weight starts. */
  method SortSymbols(weights: seq<nat>, tableLog: nat, maxW: nat) returns (l: seq<Sym>, rankStart: seq<nat>)
    requires IsMaxWeight(weights, maxW, tableLog)
    ensures IsSorted(l, weights, tableLog) && PlacesNext(rankStart, weights, tableLog, maxW, |weights|)
  {
    var sizeOfSort;
    rankStart, sizeOfSort := StartPlaces(weights, tableLog, maxW);
    hide First, CountOf, Placed, Index;
    var buffer := seq(|weights|, _ => Sym(0, 0));
    NothingPlaced(buffer, weights, tableLog);
    for s := 0 to |weights|
      invariant |buffer| == |weights|
      invariant PlacesNext(rankStart, weights, tableLog, maxW, s) && Placed(buffer, weights, tableLog, s)
    {
      var w := weights[s];
      var r := rankStart[w];
      rankStart := rankStart[w := r + 1];
      PlaceFits(weights, tableLog, s);
      PlaceIs(weights, tableLog, s);
      PlaceNext(buffer, weights, tableLog, s);
      CountsNext(weights, s);
      buffer := buffer[r := Sym(s, w)];
    }
    if |weights| > 0 {
      PlaceFits(weights, tableLog, 0);
    }
    AllPlaced(buffer, weights, tableLog);
    l := buffer[..sizeOfSort];
  }

  lemma NothingPlaced(buffer: seq<Sym>, weights: seq<nat>, tableLog: nat)
    ensures Placed(buffer, weights, tableLog, 0)
  {
  }

  lemma PlaceIs(weights: seq<nat>, tableLog: nat, n: nat)
    requires n < |weights|
    ensures Place(weights, tableLog, n) ==
            (if weights[n] == 0 then First(weights, tableLog + 1) else First(weights, weights[n])) + CountOf(weights, weights[n], n)
  {
  }

  lemma CountsNext(weights: seq<nat>, n: nat)
    requires n < |weights|
    ensures forall w :: CountOf(weights, w, n + 1) == CountOf(weights, w, n) + if weights[n] == w then 1 else 0
  {
  }

  lemma PlaceNext(buffer: seq<Sym>, weights: seq<nat>, tableLog: nat, n: nat)
    requires n < |weights| == |buffer| && Placed(buffer, weights, tableLog, n)
    requires forall i :: 0 <= i < |weights| ==> weights[i] <= tableLog
    ensures Place(weights, tableLog, n) < |buffer|
    ensures Placed(buffer[Place(weights, tableLog, n) := Sym(n, weights[n])], weights, tableLog, n + 1)
  {
    hide First, CountOf, Index, Place;
    PlaceFits(weights, tableLog, n);
    var after := buffer[Place(weights, tableLog, n) := Sym(n, weights[n])];
    forall m: nat | m < n + 1
      ensures Place(weights, tableLog, m) < |after| && after[Place(weights, tableLog, m)] == Sym(m, weights[m])
    {
      if m < n {
        PlacesDiffer(weights, tableLog, m, n);
      }
    }
  }

  lemma AllPlaced(buffer: seq<Sym>, weights: seq<nat>, tableLog: nat)
    requires Placed(buffer, weights, tableLog, |weights|) && |buffer| == |weights|
    requires forall i :: 0 <= i < |weights| ==> weights[i] <= tableLog
    ensures First(weights, tableLog + 1) <= |weights|
    ensures IsSorted(buffer[..First(weights, tableLog + 1)], weights, tableLog)
  {
    hide First, CountOf;
    EveryoneRanked(weights, tableLog, |weights|);
    FirstIsRankCount(weights, tableLog + 1);
    var l := buffer[..First(weights, tableLog + 1)];
    forall n: nat | n < |weights| && weights[n] >= 1
      ensures Index(weights, n) < |l| && l[Index(weights, n)] == Sym(n, weights[n])
    {
      PlaceFits(weights, tableLog, n);
      assert Place(weights, tableLog, n) == Index(weights, n);
    }
  }

  // ----- where the cells of each symbol start

  /** The start of the t-th symbol in a table of maxTableLog bits (`up` more than the codes need) whose
      first `c` bits have been consumed. */
  function Q(l: seq<Sym>, up: nat, c: nat, t: nat): nat
    requires t <= |l|
  {
    Shr(Shl(P(l, t), up), c)
  }

  lemma ShrPlus(a: nat, b: nat, c: nat)
    ensures Shr(a + Shl(b, c), c) == Shr(a, c) + b
  {
    ShiftBack(a, c);
    LowBelow(a, c);
    ShlAdd(Shr(a, c), b, c);
    StackedField(Low(a, c), Shr(a, c) + b, c);
  }

  lemma ShlPow2(a: nat, k: nat)
    ensures Shl(Pow2(a), k) == Pow2(a + k)
  {
    ShlIsTimes(Pow2(a), k);
    Pow2Add(a, k);
  }

  /** Starts are evenly spaced: a code of nbBits takes as many cells as the remaining bits spell. */
  lemma QNext(l: seq<Sym>, up: nat, c: nat, t: nat)
    requires t < |l| && l[t].weight >= 1 && l[t].weight - 1 + up >= c
    ensures Q(l, up, c, t + 1) == Q(l, up, c, t) + Pow2(l[t].weight - 1 + up - c)
  {
    hide Shr, Shl, Pow2;
    var w := l[t].weight;
    ShlAdd(P(l, t), Pow2(w - 1), up);
    ShlPow2(w - 1, up);
    ShlPow2(w - 1 + up - c, c);
    ShrPlus(Shl(P(l, t), up), Pow2(w - 1 + up - c), c);
  }

  lemma QEnd(l: seq<Sym>, tableLog: nat, up: nat, c: nat)
    requires Complete(l, tableLog) && c <= tableLog + up
    ensures Q(l, up, c, |l|) == Pow2(tableLog + up - c)
  {
    hide Shr, Shl, Pow2;
    ShlPow2(tableLog, up);
    ShlPow2(tableLog + up - c, c);
    ShlThenShr(Pow2(tableLog + up - c), c);
  }

  /** Nothing is lost by dropping the consumed bits of a start. */
  lemma QExact(l: seq<Sym>, tableLog: nat, up: nat, c: nat, t: nat)
    requires Complete(l, tableLog) && c <= tableLog + up && t <= |l|
    requires t < |l| ==> l[t].weight - 1 + up >= c
    ensures Shl(Q(l, up, c, t), c) == Shl(P(l, t), up)
  {
    hide Shr, Shl, Pow2, P;
    var w := if t < |l| then l[t].weight else tableLog + 1;
    var k := PAligned(l, tableLog, t, w);
    ShlIsTimes(k, w - 1);
    ShlShl(k, w - 1, up);
    ShlShl(k, w - 1 + up - c, c);
    ShlThenShr(Shl(k, w - 1 + up - c), c);
  }

  lemma {:induction false} QMonotone(l: seq<Sym>, up: nat, c: nat, i: nat, j: nat)
    requires i <= j <= |l|
    ensures Q(l, up, c, i) <= Q(l, up, c, j)
  {
    PMonotone(l, i, j);
    ShlOrder(P(l, i), P(l, j), up);
    ShrMonotone(Shl(P(l, i), up), Shl(P(l, j), up), c);
  }

  lemma {:induction false} ShlOrder(a: nat, b: nat, k: nat)
    ensures a <= b <==> Shl(a, k) <= Shl(b, k)
  {
    if k > 0 {
      ShlOrder(a, b, k - 1);
    }
  }

  /** `x >> k >= a` compares x with a shifted back. */
  lemma ShrAtLeast(x: nat, k: nat, a: nat)
    ensures Shr(x, k) >= a <==> x >= Shl(a, k)
  {
    ShiftBack(x, k);
    LowBelow(x, k);
    ShlOrder(a, Shr(x, k), k);
    if Shr(x, k) < a {
      ShlOrder(Shr(x, k) + 1, a, k);
      ShlAdd(Shr(x, k), 1, k);
      ShlIsTimes(1, k);
    }
  }

  // ----- what a cell of the table must hold

  function NbBits(sym: Sym, tableLog: nat): nat {
    if sym.weight <= tableLog + 1 then tableLog + 1 - sym.weight else 0
  }

  function Single(l: seq<Sym>, tableLog: nat, s: nat): Cell2
    requires s < |l|
  {
    Cell2(l[s].symbol, 0, NbBits(l[s], tableLog), 1)
  }

  function Double(l: seq<Sym>, tableLog: nat, s: nat, t: nat): Cell2
    requires s < |l| && t < |l|
  {
    Cell2(l[s].symbol, l[t].symbol, NbBits(l[s], tableLog) + NbBits(l[t], tableLog), 2)
  }

  /** Cell `o` of the block of symbol s: the symbols whose codes fit in the bits left over are at their
      starts, and before them stands s alone. */
  ghost predicate IsEntry(cell: Cell2, l: seq<Sym>, tableLog: nat, maxTableLog: nat, s: nat, o: int)
    requires s < |l| && tableLog <= maxTableLog
  {
    var c := NbBits(l[s], tableLog);
    && (forall t: nat :: t < |l| && c + NbBits(l[t], tableLog) <= maxTableLog
          && Q(l, maxTableLog - tableLog, c, t) <= o < Q(l, maxTableLog - tableLog, c, t + 1)
          ==> cell == Double(l, tableLog, s, t))
    && ((forall t: nat :: t < |l| && c + NbBits(l[t], tableLog) <= maxTableLog ==> o < Q(l, maxTableLog - tableLog, c, t))
        ==> cell == Single(l, tableLog, s))
  }

  ghost predicate IsX2(cells: seq<Cell2>, l: seq<Sym>, tableLog: nat, maxTableLog: nat)
    requires tableLog <= maxTableLog
  {
    && |cells| == Pow2(maxTableLog)
    && forall s: nat, u: nat {:trigger InBlock(l, maxTableLog - tableLog, s, u)} ::
         s < |l| && u < |cells| && InBlock(l, maxTableLog - tableLog, s, u)
         ==> IsEntry(cells[u], l, tableLog, maxTableLog, s, u - Q(l, maxTableLog - tableLog, 0, s))
  }

  predicate InBlock(l: seq<Sym>, up: nat, s: nat, u: nat)
    requires s < |l|
  {
    Q(l, up, 0, s) <= u < Q(l, up, 0, s + 1)
  }

  // ----- one lookup is one or two

  /** What two lookups in the single-symbol table make of the bits that follow in the stream. */
  function Greedy(a: Cell1, b: Cell1, maxTableLog: nat): Cell2 {
    if a.nbBits + b.nbBits <= maxTableLog then Cell2(a.symbol, b.symbol, a.nbBits + b.nbBits, 2)
    else Cell2(a.symbol, 0, a.nbBits, 1)
  }

  /** The two tables on the bits `x` that come next: the double-symbol table reads maxTableLog of them,
      the single-symbol table tableLog, and once more after its first code. */
  ghost predicate Agree(x2: seq<Cell2>, x1: seq<Cell1>, tableLog: nat, maxTableLog: nat, x: nat) {
    && Shr(x, tableLog) < |x2| && Shr(x, maxTableLog) < |x1|
    && var a := x1[Shr(x, maxTableLog)];
       && a.nbBits <= maxTableLog && Low(Shr(x, maxTableLog - a.nbBits), tableLog) < |x1|
       && x2[Shr(x, tableLog)] == Greedy(a, x1[Low(Shr(x, maxTableLog - a.nbBits), tableLog)], maxTableLog)
  }

  /** Whatever bits `x` come next, a lookup in the double-symbol table is one lookup in the single-symbol
      table, and a second one just when its code lies within the index as well. */
  lemma Refinement(x2: seq<Cell2>, x1: seq<Cell1>, l: seq<Sym>, tableLog: nat, maxTableLog: nat, x: nat)
    requires Complete(l, tableLog) && tableLog <= maxTableLog && x < Pow2(maxTableLog + tableLog)
    requires IsX1(x1, l, tableLog) && IsX2(x2, l, tableLog, maxTableLog)
    ensures Agree(x2, x1, tableLog, maxTableLog, x)
  {
    hide IsX1, IsX2, IsEntry, P, Q, Shl, Shr, Low, Pow2;
    ShrSmall(x, maxTableLog, tableLog);
    ShrSmall(x, tableLog, maxTableLog);
    var up := maxTableLog - tableLog;
    var s := X1At(x1, l, tableLog, Shr(x, maxTableLog));
    var c := NbBits(l[s], tableLog);
    LowBelow(Shr(x, maxTableLog - c), tableLog);
    var i := Low(Shr(x, maxTableLog - c), tableLog);
    var t := X1At(x1, l, tableLog, i);
    var o := OffsetOf(l, tableLog, maxTableLog, x, s);
    assert IsEntry(x2[Shr(x, tableLog)], l, tableLog, maxTableLog, s, o) by {
      EntryOf(x2, l, tableLog, maxTableLog, s, Shr(x, tableLog));
    }
    EntryIsGreedy(x2[Shr(x, tableLog)], l, tableLog, maxTableLog, s, t, x, o);
  }

  lemma X1At(x1: seq<Cell1>, l: seq<Sym>, tableLog: nat, u: nat) returns (s: nat)
    requires Complete(l, tableLog) && IsX1(x1, l, tableLog) && u < Pow2(tableLog)
    ensures |x1| == Pow2(tableLog) && s < |l| && P(l, s) <= u < P(l, s + 1)
    ensures x1[u] == Cell1(l[s].symbol, NbBits(l[s], tableLog))
  {
    s := CellsCovered(l, tableLog, u);
  }

  lemma EntryOf(x2: seq<Cell2>, l: seq<Sym>, tableLog: nat, maxTableLog: nat, s: nat, u: nat)
    requires tableLog <= maxTableLog && IsX2(x2, l, tableLog, maxTableLog) && u < Pow2(maxTableLog) && s < |l|
    requires Q(l, maxTableLog - tableLog, 0, s) <= u < Q(l, maxTableLog - tableLog, 0, s + 1)
    ensures |x2| == Pow2(maxTableLog)
    ensures IsEntry(x2[u], l, tableLog, maxTableLog, s, u - Q(l, maxTableLog - tableLog, 0, s))
  {
    assert InBlock(l, maxTableLog - tableLog, s, u);
  }

  lemma QZero(l: seq<Sym>, up: nat, t: nat)
    requires t <= |l|
    ensures Q(l, up, 0, t) == Shl(P(l, t), up)
  {
  }

  /** An index lies in the block of the symbol that its leading bits name, and its place in the block is
      what the bits after that symbol's code spell. */
  lemma OffsetOf(l: seq<Sym>, tableLog: nat, maxTableLog: nat, x: nat, s: nat) returns (o: nat)
    requires Complete(l, tableLog) && tableLog <= maxTableLog && s < |l|
    requires P(l, s) <= Shr(x, maxTableLog) < P(l, s + 1)
    ensures Q(l, maxTableLog - tableLog, 0, s) <= Shr(x, tableLog) < Q(l, maxTableLog - tableLog, 0, s + 1)
    ensures o == Shr(x, tableLog) - Q(l, maxTableLog - tableLog, 0, s)
    ensures o == Low(Shr(x, tableLog), maxTableLog - NbBits(l[s], tableLog))
  {
    hide P, Q, Shl, Shr, Low, Pow2;
    var up, u, c := maxTableLog - tableLog, Shr(x, tableLog), NbBits(l[s], tableLog);
    ShrShr(x, tableLog, up);
    ShrAtLeast(u, up, P(l, s));
    ShrAtLeast(u, up, P(l, s + 1));
    QZero(l, up, s);
    QZero(l, up, s + 1);
    o := u - Q(l, up, 0, s);
    QNext(l, up, 0, s);
    var k := PAligned(l, tableLog, s, l[s].weight);
    ShlIsTimes(k, l[s].weight - 1);
    ShlShl(k, l[s].weight - 1, up);
    StackedField(o, k, maxTableLog - c);
  }

  /** Before and after dropping the code of the first symbol, positions compare alike. */
  lemma Compare(l: seq<Sym>, tableLog: nat, maxTableLog: nat, c: nat, y: nat, r: nat)
    requires Complete(l, tableLog) && tableLog <= maxTableLog && c <= maxTableLog && r <= |l|
    requires r < |l| ==> l[r].weight - 1 + maxTableLog - tableLog >= c
    ensures Shr(y, maxTableLog - c) >= P(l, r) <==> Shr(y, tableLog) >= Q(l, maxTableLog - tableLog, c, r)
  {
    hide P, Q, Shl, Shr, Complete;
    var up := maxTableLog - tableLog;
    var p, q := P(l, r), Q(l, up, c, r);
    QExact(l, tableLog, up, c, r);
    ShlShl(q, tableLog, c);
    ShlShl(q, c, tableLog);
    ShlShl(p, up, tableLog);
    ShlShl(p, maxTableLog - c, c);
    ShlOrder(Shl(p, maxTableLog - c), Shl(q, tableLog), c);
    ShlOrder(Shl(q, tableLog), Shl(p, maxTableLog - c), c);
    ShrAtLeast(y, maxTableLog - c, p);
    ShrAtLeast(y, tableLog, q);
  }

  lemma EntryIsGreedy(cell: Cell2, l: seq<Sym>, tableLog: nat, maxTableLog: nat, s: nat, t: nat, x: nat, o: nat)
    requires Complete(l, tableLog) && tableLog <= maxTableLog && s < |l| && t < |l|
    requires IsEntry(cell, l, tableLog, maxTableLog, s, o)
    requires NbBits(l[s], tableLog) <= maxTableLog && o == Low(Shr(x, tableLog), maxTableLog - NbBits(l[s], tableLog))
    requires P(l, t) <= Low(Shr(x, maxTableLog - NbBits(l[s], tableLog)), tableLog) < P(l, t + 1)
    ensures cell == Greedy(Cell1(l[s].symbol, NbBits(l[s], tableLog)), Cell1(l[t].symbol, NbBits(l[t], tableLog)), maxTableLog)
  {
    hide P, Q, Shl, Shr, Low;
    var c := NbBits(l[s], tableLog);
    var y := Low(x, maxTableLog - c + tableLog);
    LowOfShr(x, maxTableLog - c, tableLog);
    LowOfShr(x, tableLog, maxTableLog - c);
    if c + NbBits(l[t], tableLog) <= maxTableLog {
      Compare(l, tableLog, maxTableLog, c, y, t);
      Compare(l, tableLog, maxTableLog, c, y, t + 1);
    } else {
      forall r: nat | r < |l| && c + NbBits(l[r], tableLog) <= maxTableLog
        ensures o < Q(l, maxTableLog - tableLog, c, r)
      {
        PMonotone(l, t + 1, r);
        Compare(l, tableLog, maxTableLog, c, y, r);
      }
    }
  }

  // ----- filling the table

  /** How far symbol s of the list has moved the cursor of weight w. */
  function Cursor(weights: seq<nat>, w: nat, s: nat): nat {
    if s < First(weights, w) then First(weights, w)
    else if s > First(weights, w + 1) then First(weights, w + 1) else s
  }

  lemma CursorMoves(l: seq<Sym>, weights: seq<nat>, tableLog: nat, s: nat, w: nat)
    requires IsSorted(l, weights, tableLog) && s < |l| && 1 <= w <= tableLog
    ensures 1 <= l[s].weight <= tableLog && Cursor(weights, l[s].weight, s) == s
    ensures Cursor(weights, w, s + 1) == if w == l[s].weight then s + 1 else Cursor(weights, w, s)
    ensures Cursor(weights, w, s) <= |l| && Cursor(weights, w, s + 1) <= |l|
  {
    hide First;
    var v := l[s].weight;
    GroupOf(l, weights, tableLog, s, 1);
    GroupOf(l, weights, tableLog, s, v);
    GroupOf(l, weights, tableLog, s, v + 1);
    FirstMonotone(weights, w, w + 1);
    FirstMonotone(weights, w + 1, tableLog + 1);
    if w < v {
      FirstMonotone(weights, w + 1, v);
    } else if w > v {
      FirstMonotone(weights, v + 1, w);
    }
  }

  /** `rankVal` while symbol s is next: every weight from `low` on is at the start of its next symbol. */
  ghost predicate Cursors(rankVal: seq<nat>, l: seq<Sym>, weights: seq<nat>, maxW: nat, low: nat, up: nat, c: nat,
                      s: nat) {
    && |rankVal| == maxW + 1
    && forall w {:trigger Cursor(weights, w, s)} :: low <= w <= maxW ==>
         Cursor(weights, w, s) <= |l| && rankVal[w] == Q(l, up, c, Cursor(weights, w, s))
  }

  /** What the two levels of the fill share: the tables built before it. */
  ghost predicate Ready(l: seq<Sym>, weights: seq<nat>, tableLog: nat, maxW: nat) {
    IsSorted(l, weights, tableLog) && Accepted(weights, tableLog) && IsMaxWeight(weights, maxW, tableLog)
  }

  lemma CursorsNext(rankVal: seq<nat>, l: seq<Sym>, weights: seq<nat>, tableLog: nat, maxW: nat, low: nat, up: nat,
                    c: nat, s: nat)
    requires Ready(l, weights, tableLog, maxW) && s < |l| && 1 <= low <= l[s].weight
    requires Cursors(rankVal, l, weights, maxW, low, up, c, s) && l[s].weight - 1 + up >= c
    ensures 1 <= l[s].weight <= maxW < |rankVal| && rankVal[l[s].weight] == Q(l, up, c, s)
    ensures Cursors(rankVal[l[s].weight := Q(l, up, c, s) + Pow2(l[s].weight - 1 + up - c)], l, weights, maxW, low, up, c, s + 1)
  {
    hide First, Q, Pow2, Cursor;
    var n := EntryAt(l, weights, tableLog, s);
    CursorMoves(l, weights, tableLog, s, l[s].weight);
    QNext(l, up, c, s);
    var after := rankVal[l[s].weight := Q(l, up, c, s) + Pow2(l[s].weight - 1 + up - c)];
    var next := s + 1;
    forall w | low <= w <= maxW
      ensures Cursor(weights, w, next) <= |l| && after[w] == Q(l, up, c, Cursor(weights, w, next))
    {
      CursorMoves(l, weights, tableLog, s, w);
    }
    assert Cursors(after, l, weights, maxW, low, up, c, next);
  }

  /** `for (u = start; u < end; u++) dt[u] = DElt;` */
  method Fill(dt: array<Cell2>, start: nat, end: nat, d: Cell2)
    requires start <= end <= dt.Length
    modifies dt
    ensures forall u :: 0 <= u < dt.Length ==> dt[u] == if start <= u < end then d else old(dt[u])
  {
    for u := start to end
      invariant forall i :: 0 <= i < dt.Length ==> dt[i] == if start <= i < u then d else old(dt[i])
    {
      dt[u] := d;
    }
  }

  /** The block of symbol s in a table being filled: as far as second symbol t. */
  ghost predicate Block(cells: seq<Cell2>, start: nat, l: seq<Sym>, tableLog: nat, up: nat, s: nat, rank: nat, t: nat)
    requires s < |l| && rank <= t <= |l|
  {
    var c := NbBits(l[s], tableLog);
    && start + Q(l, up, c, t) <= |cells|
    && (forall u :: start <= u < |cells| && u < start + Q(l, up, c, rank) ==> cells[u] == Single(l, tableLog, s))
    && forall r: nat, o: nat {:trigger InPart(l, up, c, r, o)} ::
         rank <= r < t && start + o < |cells| && InPart(l, up, c, r, o) ==> cells[start + o] == Double(l, tableLog, s, r)
  }

  predicate InPart(l: seq<Sym>, up: nat, c: nat, r: nat, o: nat)
    requires r < |l|
  {
    Q(l, up, c, r) <= o < Q(l, up, c, r + 1)
  }

  lemma BlockNext(before: seq<Cell2>, after: seq<Cell2>, start: nat, l: seq<Sym>, tableLog: nat, up: nat, s: nat,
                  rank: nat, t: nat)
    requires s < |l| && rank <= t < |l| && Block(before, start, l, tableLog, up, s, rank, t) && |before| == |after|
    requires start + Q(l, up, NbBits(l[s], tableLog), t + 1) <= |before|
    requires forall u :: 0 <= u < |after| ==>
               after[u] == if start + Q(l, up, NbBits(l[s], tableLog), t) <= u < start + Q(l, up, NbBits(l[s], tableLog), t + 1)
                           then Double(l, tableLog, s, t) else before[u]
    ensures Block(after, start, l, tableLog, up, s, rank, t + 1)
  {
    hide Q, Double, Single, NbBits;
    var c := NbBits(l[s], tableLog);
    QMonotone(l, up, c, rank, t);
    forall r: nat, o: nat | rank <= r < t + 1 && start + o < |after| && InPart(l, up, c, r, o)
      ensures after[start + o] == Double(l, tableLog, s, r)
    {
      if r < t {
        QMonotone(l, up, c, r + 1, t);
      }
    }
  }

  lemma BlockStarts(cells: seq<Cell2>, start: nat, l: seq<Sym>, tableLog: nat, up: nat, s: nat, rank: nat)
    requires s < |l| && rank <= |l| && start + Q(l, up, NbBits(l[s], tableLog), rank) <= |cells|
    requires forall u :: start <= u < start + Q(l, up, NbBits(l[s], tableLog), rank) ==>
               cells[u] == Single(l, tableLog, s)
    ensures Block(cells, start, l, tableLog, up, s, rank, rank)
  {
    hide Q, Single;
  }

  lemma RankFacts(l: seq<Sym>, weights: seq<nat>, tableLog: nat, maxW: nat, minWeight: nat, up: nat, c: nat, t: nat)
    requires Ready(l, weights, tableLog, maxW) && 1 <= minWeight <= maxW && First(weights, minWeight) <= t < |l|
    requires minWeight - 1 + up >= c && c <= tableLog + up
    ensures Complete(l, tableLog) && minWeight <= l[t].weight <= tableLog
    ensures Q(l, up, c, t + 1) == Q(l, up, c, t) + Pow2(l[t].weight - 1 + up - c) <= Pow2(tableLog + up - c)
  {
    hide Q, Pow2, First;
    SortedIsComplete(l, weights, tableLog);
    GroupOf(l, weights, tableLog, t, minWeight);
    QNext(l, up, c, t);
    QEnd(l, tableLog, up, c);
    QMonotone(l, up, c, t + 1, |l|);
  }

  /** A row of start values, for codes that follow c consumed bits. */
  ghost predicate IsRow(row: seq<nat>, l: seq<Sym>, weights: seq<nat>, maxW: nat, up: nat, c: nat) {
    && |row| == maxW + 1
    && forall w :: 1 <= w <= maxW ==> First(weights, w) <= |l| && row[w] == Q(l, up, c, First(weights, w))
  }

  /** HUF_fillDTableX2Level2: the block of symbol s, whose code has `consumed` bits, at `start`. */
  method FillLevel2(dt: array<Cell2>, start: nat, sizeLog: nat, consumed: nat, rankValOrigin: seq<nat>, minWeight: nat,
                    l: seq<Sym>, sortedRank: nat, nbBitsBaseline: nat, base: nat,
                    ghost weights: seq<nat>, ghost maxW: nat, ghost up: nat, ghost s: nat)
    requires nbBitsBaseline >= 1 && Ready(l, weights, nbBitsBaseline - 1, maxW) && s < |l| && base == l[s].symbol
    requires consumed == NbBits(l[s], nbBitsBaseline - 1) <= nbBitsBaseline - 1 + up
             && sizeLog == nbBitsBaseline - 1 + up - consumed
    requires start + Pow2(sizeLog) <= dt.Length
    requires 1 <= minWeight <= maxW && minWeight - 1 + up >= consumed && sortedRank == First(weights, minWeight) < |l|
    requires IsRow(rankValOrigin, l, weights, maxW, up, consumed)
    modifies dt
    ensures Block(dt[..], start, l, nbBitsBaseline - 1, up, s, sortedRank, |l|)
    ensures forall u :: 0 <= u < dt.Length && !(start <= u < start + Pow2(sizeLog)) ==> dt[u] == old(dt[u])
  {
    hide First, Q, Pow2, Block, IsSorted, Accepted, IsMaxWeight, Cursors, Ready;
    var rankVal := rankValOrigin;
    ghost var tableLog: nat := nbBitsBaseline - 1;
    RankFacts(l, weights, tableLog, maxW, minWeight, up, consumed, sortedRank);
    Level2Starts(rankVal, l, weights, tableLog, maxW, minWeight, up, consumed);
    if minWeight > 1 {
      Fill(dt, start, start + rankVal[minWeight], Cell2(base, 0, consumed, 1));
    }
    BlockStarts(dt[..], start, l, tableLog, up, s, sortedRank);
    for t := sortedRank to |l|
      invariant Cursors(rankVal, l, weights, maxW, minWeight, up, consumed, t)
      invariant Block(dt[..], start, l, tableLog, up, s, sortedRank, t)
      invariant forall u :: 0 <= u < dt.Length && !(start <= u < start + Pow2(sizeLog)) ==> dt[u] == old(dt[u])
    {
      RankFacts(l, weights, tableLog, maxW, minWeight, up, consumed, t);
      CursorsNext(rankVal, l, weights, tableLog, maxW, minWeight, up, consumed, t);
      var weight := l[t].weight;
      var nbBits := nbBitsBaseline - weight;
      var length := Pow2(sizeLog - nbBits);
      var first := rankVal[weight];
      ghost var before := dt[..];
      Fill(dt, start + first, start + first + length, Cell2(base, l[t].symbol, nbBits + consumed, 2));
      BlockNext(before, dt[..], start, l, tableLog, up, s, sortedRank, t);
      rankVal := rankVal[weight := first + length];
    }
  }

  lemma Level2Starts(rankVal: seq<nat>, l: seq<Sym>, weights: seq<nat>, tableLog: nat, maxW: nat, minWeight: nat,
                     up: nat, c: nat)
    requires Ready(l, weights, tableLog, maxW) && 1 <= minWeight <= maxW && IsRow(rankVal, l, weights, maxW, up, c)
    ensures Cursors(rankVal, l, weights, maxW, minWeight, up, c, First(weights, minWeight))
    ensures minWeight == 1 ==> Q(l, up, c, First(weights, minWeight)) == 0
  {
    hide First, Pow2, Shl, Shr, P, IsSorted, Accepted, IsMaxWeight;
    var s := First(weights, minWeight);
    forall w | minWeight <= w <= maxW
      ensures Cursor(weights, w, s) <= |l| && rankVal[w] == Q(l, up, c, Cursor(weights, w, s))
    {
      FirstMonotone(weights, minWeight, w);
      FirstMonotone(weights, w, w + 1);
    }
    if minWeight == 1 {
      FirstStart(weights);
      QStart(l, up, c);
    }
  }

  lemma QStart(l: seq<Sym>, up: nat, c: nat)
    ensures Q(l, up, c, 0) == 0
  {
    ShlIsTimes(0, up);
    ShrIsDiv(0, c);
  }

  /** The rows a fill of the table looks at: none consumed, or as many bits as leave room for a code. */
  ghost predicate AreRows(rows: seq<seq<nat>>, l: seq<Sym>, weights: seq<nat>, tableLog: nat, maxTableLog: nat,
                      maxW: nat)
    requires tableLog <= maxTableLog
  {
    && |rows| == maxTableLog + 1 && maxW <= tableLog && IsRow(rows[0], l, weights, maxW, maxTableLog - tableLog, 0)
    && forall c :: tableLog + 1 - maxW <= c <= maxTableLog - (tableLog + 1 - maxW) ==>
         IsRow(rows[c], l, weights, maxW, maxTableLog - tableLog, c)
  }

  /** The start values of every weight, and the same with the first `consumed` bits dropped. */
  method BuildRankVal(weights: seq<nat>, tableLog: nat, maxTableLog: nat, maxW: nat, ghost l: seq<Sym>)
    returns (rankVal: seq<seq<nat>>)
    requires Ready(l, weights, tableLog, maxW) && tableLog <= maxTableLog
    ensures AreRows(rankVal, l, weights, tableLog, maxTableLog, maxW)
  {
    hide First, CountOf, Shl, Shr, P, RankSum, IsSorted, Accepted, Q;
    var rescale := maxTableLog - tableLog - 1;
    var row: seq<nat> := seq(maxW + 1, _ => 0);
    var nextRankVal, w := 0, 1;
    NoRanks(weights);
    ShlZero(maxTableLog - tableLog);
    while w < maxW + 1
      invariant 1 <= w <= maxW + 1 && |row| == maxW + 1
      invariant nextRankVal == Shl(RankSum(weights, w, |weights|), maxTableLog - tableLog)
      invariant forall v :: 1 <= v < w ==> row[v] == Shl(RankSum(weights, v, |weights|), maxTableLog - tableLog)
    {
      var stat := CountWeight(weights, w);
      row := row[w := nextRankVal];
      ScaledStep(weights, w, maxTableLog - tableLog);
      nextRankVal := nextRankVal + Shl(stat, w + rescale);
      w := w + 1;
    }
    RowZero(row, l, weights, tableLog, maxTableLog, maxW);
    rankVal := seq(maxTableLog + 1, _ => row);
    var minBits := tableLog + 1 - maxW;
    var consumed := minBits;
    while consumed < maxTableLog - minBits + 1
      invariant minBits <= consumed && |rankVal| == maxTableLog + 1 && rankVal[0] == row
      invariant forall c :: minBits <= c < consumed && c <= maxTableLog - minBits ==>
                  IsRow(rankVal[c], l, weights, maxW, maxTableLog - tableLog, c)
    {
      var shifted := seq(maxW + 1, v requires 0 <= v < maxW + 1 => Shr(row[v], consumed));
      RowShifted(row, shifted, l, weights, maxW, maxTableLog - tableLog, consumed);
      rankVal := rankVal[consumed := shifted];
      consumed := consumed + 1;
    }
  }

  lemma ShlZero(k: nat)
    ensures Shl(0, k) == 0
  {
    ShlIsTimes(0, k);
  }

  lemma ScaledStep(weights: seq<nat>, w: nat, up: nat)
    requires w >= 1
    ensures Shl(RankSum(weights, w + 1, |weights|), up)
            == Shl(RankSum(weights, w, |weights|), up) + Shl(CountOf(weights, w, |weights|), w - 1 + up)
  {
    hide RankSum, CountOf, Shl;
    RankSumStep(weights, w);
    var c := CountOf(weights, w, |weights|);
    ShlIsTimes(c, w - 1);
    ShlShl(c, w - 1, up);
    ShlAdd(RankSum(weights, w, |weights|), c * Pow2(w - 1), up);
  }

  lemma RowZero(row: seq<nat>, l: seq<Sym>, weights: seq<nat>, tableLog: nat, maxTableLog: nat, maxW: nat)
    requires Ready(l, weights, tableLog, maxW) && tableLog <= maxTableLog && |row| == maxW + 1
    requires forall v :: 1 <= v <= maxW ==> row[v] == Shl(RankSum(weights, v, |weights|), maxTableLog - tableLog)
    ensures IsRow(row, l, weights, maxW, maxTableLog - tableLog, 0)
  {
    hide First, CountOf, Shl, P, RankSum, IsSorted, Accepted, Q;
    forall w | 1 <= w <= maxW
      ensures First(weights, w) <= |l| && row[w] == Q(l, maxTableLog - tableLog, 0, First(weights, w))
    {
      GroupStart(l, weights, tableLog, w, 0);
      QZero(l, maxTableLog - tableLog, First(weights, w));
    }
  }

  lemma RowShifted(row: seq<nat>, shifted: seq<nat>, l: seq<Sym>, weights: seq<nat>, maxW: nat, up: nat, c: nat)
    requires IsRow(row, l, weights, maxW, up, 0) && |shifted| == |row|
    requires forall w :: 0 <= w < |row| ==> shifted[w] == Shr(row[w], c)
    ensures IsRow(shifted, l, weights, maxW, up, c)
  {
    hide First, Shl, P;
    forall w | 1 <= w <= maxW
      ensures shifted[w] == Q(l, up, c, First(weights, w))
    {
      QZero(l, up, First(weights, w));
    }
  }

  /** Every entry of the blocks of the symbols before s is right. */
  ghost predicate Filled2(cells: seq<Cell2>, l: seq<Sym>, tableLog: nat, maxTableLog: nat, s: nat)
    requires tableLog <= maxTableLog && s <= |l|
  {
    forall r: nat, u: nat {:trigger InBlock(l, maxTableLog - tableLog, r, u)} ::
      r < s && u < |cells| && InBlock(l, maxTableLog - tableLog, r, u)
      ==> IsEntry(cells[u], l, tableLog, maxTableLog, r, u - Q(l, maxTableLog - tableLog, 0, r))
  }

  lemma Filled2Next(before: seq<Cell2>, after: seq<Cell2>, l: seq<Sym>, tableLog: nat, maxTableLog: nat, s: nat)
    requires tableLog <= maxTableLog && s < |l| && Filled2(before, l, tableLog, maxTableLog, s) && |before| == |after|
    requires forall u: nat :: u < |after| && u < Q(l, maxTableLog - tableLog, 0, s) ==> after[u] == before[u]
    requires forall u: nat :: u < |after| && InBlock(l, maxTableLog - tableLog, s, u) ==>
               IsEntry(after[u], l, tableLog, maxTableLog, s, u - Q(l, maxTableLog - tableLog, 0, s))
    ensures Filled2(after, l, tableLog, maxTableLog, s + 1)
  {
    hide Q, IsEntry;
    var up := maxTableLog - tableLog;
    forall r: nat, u: nat | r < s + 1 && u < |after| && InBlock(l, up, r, u)
      ensures IsEntry(after[u], l, tableLog, maxTableLog, r, u - Q(l, up, 0, r))
    {
      if r < s {
        QMonotone(l, up, 0, r + 1, s);
      }
    }
  }

  /** `minWeight`: the lightest symbol whose code fits in the bits that a code of nbBits leaves. */
  function MinWeight(nbBits: nat, tableLog: nat, maxTableLog: nat): nat {
    if nbBits + tableLog + 1 - maxTableLog < 1 then 1 else nbBits + tableLog + 1 - maxTableLog
  }

  lemma MinWeightFits(l: seq<Sym>, weights: seq<nat>, tableLog: nat, maxW: nat, maxTableLog: nat, c: nat)
    requires Ready(l, weights, tableLog, maxW) && tableLog <= maxTableLog && c + (tableLog + 1 - maxW) <= maxTableLog
    ensures 1 <= MinWeight(c, tableLog, maxTableLog) <= maxW
    ensures First(weights, MinWeight(c, tableLog, maxTableLog)) < |l|
    ensures forall t: nat :: t < |l| ==>
              (c + NbBits(l[t], tableLog) <= maxTableLog <==> t >= First(weights, MinWeight(c, tableLog, maxTableLog)))
  {
    hide First;
    var w := MinWeight(c, tableLog, maxTableLog);
    FirstMonotone(weights, w, maxW);
    forall t: nat | t < |l|
      ensures c + NbBits(l[t], tableLog) <= maxTableLog <==> t >= First(weights, w)
    {
      GroupOf(l, weights, tableLog, t, w);
    }
  }

  lemma BlockIsEntries(cells: seq<Cell2>, l: seq<Sym>, weights: seq<nat>, tableLog: nat, maxW: nat, maxTableLog: nat,
                      s: nat)
    requires Ready(l, weights, tableLog, maxW) && tableLog <= maxTableLog && s < |l|
    requires NbBits(l[s], tableLog) + (tableLog + 1 - maxW) <= maxTableLog
    requires First(weights, MinWeight(NbBits(l[s], tableLog), tableLog, maxTableLog)) <= |l|
    requires Block(cells, Q(l, maxTableLog - tableLog, 0, s), l, tableLog, maxTableLog - tableLog, s,
                   First(weights, MinWeight(NbBits(l[s], tableLog), tableLog, maxTableLog)), |l|)
    ensures forall u: nat :: u < |cells| && InBlock(l, maxTableLog - tableLog, s, u) ==>
              IsEntry(cells[u], l, tableLog, maxTableLog, s, u - Q(l, maxTableLog - tableLog, 0, s))
  {
    hide First, Q, Ready, MinWeight, NbBits, Single, Double;
    var up, c := maxTableLog - tableLog, NbBits(l[s], tableLog);
    MinWeightFits(l, weights, tableLog, maxW, maxTableLog, c);
    var rank, start := First(weights, MinWeight(c, tableLog, maxTableLog)), Q(l, up, 0, s);
    forall u: nat | u < |cells| && InBlock(l, up, s, u)
      ensures IsEntry(cells[u], l, tableLog, maxTableLog, s, u - start)
    {
      var o: nat := u - start;
      assert start + o == u;
      assert c + NbBits(l[rank], tableLog) <= maxTableLog;
      assert o < Q(l, up, c, rank) ==> cells[u] == Single(l, tableLog, s);
      forall t: nat | t < |l| && c + NbBits(l[t], tableLog) <= maxTableLog && Q(l, up, c, t) <= o < Q(l, up, c, t + 1)
        ensures cells[u] == Double(l, tableLog, s, t)
      {
        assert InPart(l, up, c, t, o);
      }
    }
  }

  lemma SinglesAreEntries(cells: seq<Cell2>, l: seq<Sym>, weights: seq<nat>, tableLog: nat, maxW: nat,
                      maxTableLog: nat, s: nat)
    requires Ready(l, weights, tableLog, maxW) && tableLog <= maxTableLog && s < |l|
    requires NbBits(l[s], tableLog) + (tableLog + 1 - maxW) > maxTableLog
    requires forall u: nat :: u < |cells| && InBlock(l, maxTableLog - tableLog, s, u) ==>
               cells[u] == Single(l, tableLog, s)
    ensures forall u: nat :: u < |cells| && InBlock(l, maxTableLog - tableLog, s, u) ==>
              IsEntry(cells[u], l, tableLog, maxTableLog, s, u - Q(l, maxTableLog - tableLog, 0, s))
  {
    hide First, Q, Single, Double, InBlock;
    forall t: nat | t < |l|
      ensures NbBits(l[s], tableLog) + NbBits(l[t], tableLog) > maxTableLog
    {
      var n := EntryAt(l, weights, tableLog, t);
    }
  }

  /** HUF_fillDTableX2. `rankStart[w]` is where the symbols of weight w start. */
  method FillX2(dt: array<Cell2>, targetLog: nat, sortedList: seq<Sym>, rankStart: seq<nat>,
                rankValOrigin: seq<seq<nat>>,
                maxWeight: nat, nbBitsBaseline: nat, ghost weights: seq<nat>)
    requires nbBitsBaseline >= 1 && Ready(sortedList, weights, nbBitsBaseline - 1, maxWeight)
    requires nbBitsBaseline - 1 <= targetLog && dt.Length == Pow2(targetLog)
    requires |rankStart| == maxWeight + 1 && forall w :: 1 <= w <= maxWeight ==> rankStart[w] == First(weights, w)
    requires AreRows(rankValOrigin, sortedList, weights, nbBitsBaseline - 1, targetLog, maxWeight)
    modifies dt
    ensures IsX2(dt[..], sortedList, nbBitsBaseline - 1, targetLog)
  {
    hide First, Q, Pow2, Block, IsSorted, Accepted, IsMaxWeight, Cursors, Ready, IsRow, IsEntry, IsX2, Filled2;
    var rankVal := rankValOrigin[0];
    var scaleLog := nbBitsBaseline - targetLog;
    var minBits := nbBitsBaseline - maxWeight;
    ghost var l, tableLog: nat, up := sortedList, nbBitsBaseline - 1, targetLog + 1 - nbBitsBaseline;
    Level1Starts(rankVal, dt[..], l, weights, tableLog, maxWeight, targetLog);
    for s := 0 to |sortedList|
      invariant Cursors(rankVal, l, weights, maxWeight, 1, up, 0, s)
      invariant Filled2(dt[..], l, tableLog, targetLog, s)
    {
      WeightAt(l, weights, tableLog, maxWeight, s);
      CursorsNext(rankVal, l, weights, tableLog, maxWeight, 1, up, 0, s);
      RankFacts(l, weights, tableLog, maxWeight, 1, up, 0, s);
      var symbol, weight := sortedList[s].symbol, sortedList[s].weight;
      var nbBits := nbBitsBaseline - weight;
      var start := rankVal[weight];
      var length := Pow2(targetLog - nbBits);
      ghost var before := dt[..];
      if targetLog - nbBits >= minBits {
        var minWeight := nbBits + scaleLog;
        if minWeight < 1 {
          minWeight := 1;
        }
        MinWeightFits(l, weights, tableLog, maxWeight, targetLog, nbBits);
        FillLevel2(dt, start, targetLog - nbBits, nbBits, rankValOrigin[nbBits], minWeight, sortedList,
                   rankStart[minWeight], nbBitsBaseline, symbol, weights, maxWeight, up, s);
        BlockIsEntries(dt[..], l, weights, tableLog, maxWeight, targetLog, s);
      } else {
        Fill(dt, start, start + length, Cell2(symbol, 0, nbBits, 1));
        SinglesAreEntries(dt[..], l, weights, tableLog, maxWeight, targetLog, s);
      }
      Filled2Next(before, dt[..], l, tableLog, targetLog, s);
      rankVal := rankVal[weight := start + length];
    }
    AllFilled2(dt[..], l, tableLog, targetLog);
  }

  lemma WeightAt(l: seq<Sym>, weights: seq<nat>, tableLog: nat, maxW: nat, s: nat)
    requires Ready(l, weights, tableLog, maxW) && s < |l|
    ensures 1 <= l[s].weight <= maxW <= tableLog && First(weights, 1) == 0
  {
    var n := EntryAt(l, weights, tableLog, s);
  }

  lemma Level1Starts(rankVal: seq<nat>, cells: seq<Cell2>, l: seq<Sym>, weights: seq<nat>, tableLog: nat, maxW: nat,
                     maxTableLog: nat)
    requires Ready(l, weights, tableLog, maxW) && tableLog <= maxTableLog
    requires IsRow(rankVal, l, weights, maxW, maxTableLog - tableLog, 0)
    ensures Cursors(rankVal, l, weights, maxW, 1, maxTableLog - tableLog, 0, 0)
            && Filled2(cells, l, tableLog, maxTableLog, 0)
  {
    FirstStart(weights);
    Level2Starts(rankVal, l, weights, tableLog, maxW, 1, maxTableLog - tableLog, 0);
    hide Q, IsEntry, InBlock, Ready;
  }

  lemma AllFilled2(cells: seq<Cell2>, l: seq<Sym>, tableLog: nat, maxTableLog: nat)
    requires tableLog <= maxTableLog && |cells| == Pow2(maxTableLog) && Filled2(cells, l, tableLog, maxTableLog, |l|)
    ensures IsX2(cells, l, tableLog, maxTableLog)
  {
    hide Q, IsEntry, InBlock;
  }

  /** `rankStart0`: seen from one place lower, the ends of the weights are the starts of the next. */
  method ShiftStarts(weights: seq<nat>, tableLog: nat, maxW: nat, rankStart: seq<nat>) returns (rankStart0: seq<nat>)
    requires IsMaxWeight(weights, maxW, tableLog) && PlacesNext(rankStart, weights, tableLog, maxW, |weights|)
    ensures |rankStart0| == maxW + 1 && forall w :: 1 <= w <= maxW ==> rankStart0[w] == First(weights, w)
  {
    hide First, CountOf, IsMaxWeight;
    rankStart0 := [0] + rankStart[0 := 0][..maxW];
    forall w | 1 <= w <= maxW
      ensures rankStart0[w] == First(weights, w)
    {
      if w > 1 {
        FirstNext(weights, w - 1);
      } else {
        FirstStart(weights);
      }
    }
  }

  /** HUF_readDTableX2 after the weights have been read. */
  method ReadDTableX2(weights: seq<nat>, tableLog: nat, maxTableLog: nat) returns (r: Result<array<Cell2>>,
                      ghost l: seq<Sym>)
    requires Accepted(weights, tableLog)
    ensures r.Err? <==> maxTableLog > 12 || tableLog > maxTableLog
    ensures r.Err? ==> r.error == "tableLog_tooLarge"
    ensures r.Ok? ==> fresh(r.value) && IsSorted(l, weights, tableLog) && IsX2(r.value[..], l, tableLog, maxTableLog)
  {
    if maxTableLog > TABLELOG_MAX || tableLog > maxTableLog {
      return Err("tableLog_tooLarge"), [];
    }
    var maxW := FindMaxWeight(weights, tableLog);
    var sorted, rankStart := SortSymbols(weights, tableLog, maxW);
    hide First, CountOf, Pow2, IsSorted, Accepted, IsMaxWeight, AreRows, IsX2, PlacesNext, Q, Len, P, Total;
    var rankStart0 := ShiftStarts(weights, tableLog, maxW, rankStart);
    var rankVal := BuildRankVal(weights, tableLog, maxTableLog, maxW, sorted);
    var dt := new Cell2[Pow2(maxTableLog)](_ => Cell2(0, 0, 0, 0));
    FillX2(dt, maxTableLog, sorted, rankStart0, rankVal, maxW, tableLog + 1, weights);
    l := sorted;
    r := Ok(dt);
  }
}
