/** The FSE symbol spread: which cell of a table of 2^tableLog cells holds which symbol. */
module Spread {
  import opened Powers
  import opened Walk

  const MIN_TABLELOG: nat := 5
  const MAX_TABLELOG: nat := 14
  const MAX_SYMBOL_VALUE: nat := 255

  /** Number of cells a normalized count stands for; -1 marks a low-probability symbol. */
  function Share(count: int): nat {
    if count < 0 then -count else count
  }

  predicate Counts(norm: seq<int>) {
    1 <= |norm| <= 256 && forall s :: 0 <= s < |norm| ==> -1 <= norm[s] < 32768
  }

  /** First slot of symbol s when the cells are sorted by symbol (`cumul`). */
  function Start(norm: seq<int>, s: nat): nat
    requires s <= |norm|
  {
    if s == 0 then 0 else Start(norm, s - 1) + Share(norm[s - 1])
  }

  predicate Normalized(norm: seq<int>, tableLog: nat) {
    Counts(norm) && 5 <= tableLog <= 14 && Start(norm, |norm|) == Pow2(tableLog)
  }

  function LowSymbols(norm: seq<int>, n: nat): seq<nat>
    requires n <= |norm|
  {
    if n == 0 then [] else LowSymbols(norm, n - 1) + if norm[n - 1] == -1 then [n - 1] else []
  }

  function Repeat(s: nat, count: int): seq<nat> {
    seq(if count < 0 then 0 else count, _ => s)
  }

  function Runs(norm: seq<int>, n: nat): seq<nat>
    requires n <= |norm|
  {
    if n == 0 then [] else Runs(norm, n - 1) + Repeat(n - 1, norm[n - 1])
  }

  /** How many of the first n cells hold s. */
  function Occurrences(t: seq<nat>, s: nat, n: nat): (c: nat)
    requires n <= |t|
    ensures c <= n
  {
    if n == 0 then 0 else Occurrences(t, s, n - 1) + if t[n - 1] == s then 1 else 0
  }

  ghost function WalkOrder(tableLog: nat, limit: nat): seq<nat> {
    Order(Pow2(tableLog), TableStep(Pow2(tableLog)), limit)
  }

  /** The spread: low-probability symbols fill the table from its end, the others follow the walk
      over the cells that are left. */
  ghost predicate IsSpread(norm: seq<int>, tableLog: nat, t: seq<nat>)
    requires Counts(norm)
  {
    var low, runs := LowSymbols(norm, |norm|), Runs(norm, |norm|);
    && |t| == Pow2(tableLog) == |low| + |runs|
    && (forall j :: 0 <= j < |low| ==> t[|t| - 1 - j] == low[j])
    && |WalkOrder(tableLog, |runs|)| == |runs|
    && (forall i :: 0 <= i < |runs| ==> WalkOrder(tableLog, |runs|)[i] < |t|
                                        && t[WalkOrder(tableLog, |runs|)[i]] == runs[i])
  }

  lemma {:induction false} LowAndRuns(norm: seq<int>, n: nat)
    requires Counts(norm) && n <= |norm|
    ensures |LowSymbols(norm, n)| + |Runs(norm, n)| == Start(norm, n)
  {
    if n > 0 {
      LowAndRuns(norm, n - 1);
    }
  }

  lemma {:induction false} StartMonotone(norm: seq<int>, a: nat, b: nat)
    requires a <= b <= |norm|
    ensures Start(norm, a) <= Start(norm, b)
  {
    if a < b {
      StartMonotone(norm, a, b - 1);
    }
  }

  lemma WalkIsPermutation(tableLog: nat, limit: nat)
    requires tableLog >= 4 && limit <= Pow2(tableLog)
    ensures Distinct(WalkOrder(tableLog, limit)) && |WalkOrder(tableLog, limit)| == limit
    ensures forall p: nat :: p in WalkOrder(tableLog, limit) <==> p < limit
  {
    StepIsOdd(tableLog);
    OrderIsPermutation(tableLog, TableStep(Pow2(tableLog)), limit);
  }

  // ----- every symbol gets its share of the cells

  lemma {:induction false} OccurrencesAppend(a: seq<nat>, b: seq<nat>, s: nat, n: nat)
    requires n <= |b|
    ensures Occurrences(a + b, s, |a| + n) == Occurrences(a, s, |a|) + Occurrences(b, s, n)
  {
    if n == 0 {
      OccurrencesPrefix(a, b, s, |a|);
    } else {
      OccurrencesAppend(a, b, s, n - 1);
    }
  }

  lemma {:induction false} OccurrencesPrefix(a: seq<nat>, b: seq<nat>, s: nat, n: nat)
    requires n <= |a|
    ensures Occurrences(a + b, s, n) == Occurrences(a, s, n)
  {
    if n > 0 {
      OccurrencesPrefix(a, b, s, n - 1);
    }
  }

  lemma {:induction false} OccurrencesRepeat(x: nat, count: int, s: nat, n: nat)
    requires n <= |Repeat(x, count)|
    ensures Occurrences(Repeat(x, count), s, n) == if x == s then n else 0
  {
    if n > 0 {
      OccurrencesRepeat(x, count, s, n - 1);
    }
  }

  lemma {:induction false} ShareOfRuns(norm: seq<int>, s: nat, n: nat)
    requires Counts(norm) && n <= |norm|
    ensures Occurrences(Runs(norm, n), s, |Runs(norm, n)|) + Occurrences(LowSymbols(norm, n), s, |LowSymbols(norm, n)|)
         == if s < n then Share(norm[s]) else 0
  {
    if n > 0 {
      ShareOfRuns(norm, s, n - 1);
      var run := Repeat(n - 1, norm[n - 1]);
      OccurrencesAppend(Runs(norm, n - 1), run, s, |run|);
      OccurrencesRepeat(n - 1, norm[n - 1], s, |run|);
      var low := if norm[n - 1] == -1 then [n - 1] else [];
      OccurrencesAppend(LowSymbols(norm, n - 1), low, s, |low|);
      assert |low| == 1 ==> Occurrences(low, s, 1) == Occurrences(low, s, 0) + if low[0] == s then 1 else 0;
    }
  }

  ghost function Holding(t: seq<nat>, s: nat, among: set<nat>): set<nat> {
    set u | u in among && u < |t| && t[u] == s
  }

  lemma HoldingOneMore(t: seq<nat>, s: nat, among: set<nat>, p: nat)
    requires p < |t| && p !in among
    ensures |Holding(t, s, among + {p})| == |Holding(t, s, among)| + if t[p] == s then 1 else 0
  {
    assert Holding(t, s, among + {p}) == Holding(t, s, among) + if t[p] == s then {p} else {};
  }

  lemma {:induction false} HoldingPrefix(t: seq<nat>, s: nat, n: nat)
    requires n <= |t|
    ensures |Holding(t, s, Below(n))| == Occurrences(t, s, n)
  {
    if n == 0 {
      assert Holding(t, s, Below(0)) == {};
    } else {
      HoldingPrefix(t, s, n - 1);
      HoldingOneMore(t, s, Below(n - 1), n - 1);
    }
  }

  lemma {:induction false} HoldingScattered(t: seq<nat>, s: nat, at: seq<nat>, w: seq<nat>, n: nat)
    requires Distinct(at) && n <= |at| == |w|
    requires forall i :: 0 <= i < |at| ==> at[i] < |t| && t[at[i]] == w[i]
    ensures |Holding(t, s, Elements(at[..n]))| == Occurrences(w, s, n)
  {
    if n == 0 {
      assert Holding(t, s, Elements(at[..0])) == {};
    } else {
      HoldingScattered(t, s, at, w, n - 1);
      var p := at[n - 1];
      assert at[..n] == at[..n - 1] + [p];
      assert p !in at[..n - 1];
      assert Elements(at[..n]) == Elements(at[..n - 1]) + {p};
      HoldingOneMore(t, s, Elements(at[..n - 1]), p);
    }
  }

  /** A table filled by scattering w over all its cells holds each symbol as often as w does. */
  lemma ScatterKeepsCounts(t: seq<nat>, s: nat, at: seq<nat>, w: seq<nat>)
    requires Distinct(at) && |at| == |w| == |t|
    requires forall i :: 0 <= i < |at| ==> at[i] < |t| && t[at[i]] == w[i]
    ensures Occurrences(t, s, |t|) == Occurrences(w, s, |w|)
    ensures Elements(at) == Below(|t|)
  {
    DistinctCardinality(at);
    SubsetOfSameSize(Elements(at), Below(|t|));
    assert at[..|at|] == at;
    HoldingScattered(t, s, at, w, |w|);
    HoldingPrefix(t, s, |t|);
  }

  ghost function Countdown(top: nat, n: nat): seq<nat>
  {
    seq(n, j => if 0 <= j < top then top - 1 - j else 0)
  }

  /** Walk first, then the end of the table downwards. */
  ghost function FillOrder(tableLog: nat, walked: nat, low: nat): seq<nat> {
    WalkOrder(tableLog, walked) + Countdown(Pow2(tableLog), low)
  }

  lemma FillOrderIsPermutation(tableLog: nat, walked: nat, low: nat)
    requires tableLog >= 4 && walked + low == Pow2(tableLog)
    ensures Distinct(FillOrder(tableLog, walked, low)) && |FillOrder(tableLog, walked, low)| == Pow2(tableLog)
    ensures forall i :: 0 <= i < Pow2(tableLog) ==> FillOrder(tableLog, walked, low)[i] < Pow2(tableLog)
  {
    WalkIsPermutation(tableLog, walked);
    var order := WalkOrder(tableLog, walked);
    forall i | 0 <= i < |order|
      ensures order[i] < walked
    {
      assert order[i] in order;
    }
  }

  /** A spread is its runs and low-probability symbols scattered in fill order. */
  lemma SpreadAsScatter(norm: seq<int>, tableLog: nat, t: seq<nat>) returns (at: seq<nat>, w: seq<nat>)
    requires Counts(norm) && tableLog >= 4
    requires IsSpread(norm, tableLog, t)
    ensures w == Runs(norm, |norm|) + LowSymbols(norm, |norm|)
    ensures at == FillOrder(tableLog, |Runs(norm, |norm|)|, |LowSymbols(norm, |norm|)|)
    ensures Distinct(at) && |at| == |w| == |t|
    ensures forall i :: 0 <= i < |at| ==> at[i] < |t| && t[at[i]] == w[i]
  {
    var low, runs := LowSymbols(norm, |norm|), Runs(norm, |norm|);
    FillOrderIsPermutation(tableLog, |runs|, |low|);
    at, w := FillOrder(tableLog, |runs|, |low|), runs + low;
    forall i | 0 <= i < |at|
      ensures t[at[i]] == w[i]
    {
      if i < |runs| {
        assert at[i] == WalkOrder(tableLog, |runs|)[i];
      } else {
        assert at[i] == |t| - 1 - (i - |runs|);
      }
    }
  }

  /** Every symbol sits in exactly as many cells as its normalized count says. */
  lemma SpreadShares(norm: seq<int>, tableLog: nat, t: seq<nat>, s: nat)
    requires Counts(norm) && tableLog >= 4
    requires IsSpread(norm, tableLog, t)
    ensures Occurrences(t, s, |t|) == if s < |norm| then Share(norm[s]) else 0
  {
    var at, w := SpreadAsScatter(norm, tableLog, t);
    ScatterKeepsCounts(t, s, at, w);
    ShareOfScatter(norm, s);
  }

  lemma ShareOfScatter(norm: seq<int>, s: nat)
    requires Counts(norm)
    ensures var w := Runs(norm, |norm|) + LowSymbols(norm, |norm|);
            Occurrences(w, s, |w|) == if s < |norm| then Share(norm[s]) else 0
  {
    var low, runs := LowSymbols(norm, |norm|), Runs(norm, |norm|);
    OccurrencesAppend(runs, low, s, |low|);
    assert |runs + low| == |runs| + |low|;
    ShareOfRuns(norm, s, |norm|);
  }

  lemma {:induction false} OccurrencesMonotone(t: seq<nat>, s: nat, a: nat, b: nat)
    requires a <= b <= |t|
    ensures Occurrences(t, s, a) <= Occurrences(t, s, b)
  {
    if a < b {
      OccurrencesMonotone(t, s, a, b - 1);
    }
  }

  /** The cells hold only symbols of the distribution, each with a nonzero count, and the rank of
      a cell among those of its symbol stays below that count. */
  lemma SpreadSymbols(norm: seq<int>, tableLog: nat, t: seq<nat>, u: nat)
    requires Counts(norm) && tableLog >= 4
    requires IsSpread(norm, tableLog, t)
    requires u < |t|
    ensures t[u] < |norm|
    ensures Occurrences(t, t[u], u) < Share(norm[t[u]])
  {
    SpreadShares(norm, tableLog, t, t[u]);
    OccurrencesMonotone(t, t[u], u + 1, |t|);
  }

  /** The spread is determined by the distribution, so two builders that both lay it out agree. */
  lemma SpreadUnique(norm: seq<int>, tableLog: nat, t: seq<nat>, t': seq<nat>)
    requires Counts(norm) && tableLog >= 4
    requires IsSpread(norm, tableLog, t) && IsSpread(norm, tableLog, t')
    ensures t == t'
  {
    var at, w := SpreadAsScatter(norm, tableLog, t);
    var at', w' := SpreadAsScatter(norm, tableLog, t');
    ScatterKeepsCounts(t, 0, at, w);
    forall u: nat | u < |t|
      ensures t[u] == t'[u]
    {
      assert u in Below(|t|);
      assert u in Elements(at);
    }
  }

  /** Where x first occurs in s. */
  function Find(s: seq<nat>, x: nat): (i: nat)
    ensures i <= |s|
    ensures i < |s| ==> s[i] == x && x !in s[..i]
    ensures i == |s| ==> x !in s
  {
    if s == [] then 0
    else if s[0] == x then 0
    else
      var j := Find(s[1..], x);
      assert s == [s[0]] + s[1..];
      assert 1 + j < |s| ==> s[..1 + j] == [s[0]] + s[1..][..j];
      1 + j
  }

  /** The table in which cell at[i] holds w[i]. */
  ghost function Scatter(at: seq<nat>, w: seq<nat>, size: nat): (t: seq<nat>)
    ensures |t| == size
  {
    seq(size, u => if u >= 0 && Find(at, u) < |w| then w[Find(at, u)] else 0)
  }

  lemma ScatterPlaces(at: seq<nat>, w: seq<nat>, size: nat, i: nat)
    requires Distinct(at) && i < |at| == |w| && at[i] < size
    ensures Scatter(at, w, size)[at[i]] == w[i]
  {
    var j := Find(at, at[i]);
    assert at[i] in at;
  }

  /** The one table a distribution spreads to. */
  ghost function Cells(norm: seq<int>, tableLog: nat): (t: seq<nat>)
    requires Counts(norm)
    ensures |t| == Pow2(tableLog)
  {
    var low, runs := LowSymbols(norm, |norm|), Runs(norm, |norm|);
    Scatter(FillOrder(tableLog, |runs|, |low|), runs + low, Pow2(tableLog))
  }

  lemma CellsAreSpread(norm: seq<int>, tableLog: nat)
    requires Normalized(norm, tableLog)
    ensures IsSpread(norm, tableLog, Cells(norm, tableLog))
  {
    var low, runs, size := LowSymbols(norm, |norm|), Runs(norm, |norm|), Pow2(tableLog);
    LowAndRuns(norm, |norm|);
    WalkIsPermutation(tableLog, |runs|);
    FillOrderIsPermutation(tableLog, |runs|, |low|);
    ScatterInTwoParts(WalkOrder(tableLog, |runs|), runs, low, size);
    assert forall i :: 0 <= i < |runs| ==>
        WalkOrder(tableLog, |runs|)[i] == FillOrder(tableLog, |runs|, |low|)[i] < size;
  }

  lemma ScatterInTwoParts(order: seq<nat>, runs: seq<nat>, low: seq<nat>, size: nat)
    requires |order| == |runs| && |runs| + |low| == size
    requires var at := order + Countdown(size, |low|);
             Distinct(at) && |at| == size && forall i :: 0 <= i < size ==> at[i] < size
    ensures var t := Scatter(order + Countdown(size, |low|), runs + low, size);
            && (forall i :: 0 <= i < |runs| ==> order[i] < size && t[order[i]] == runs[i])
            && forall j :: 0 <= j < |low| ==> t[size - 1 - j] == low[j]
  {
    var at, w := order + Countdown(size, |low|), runs + low;
    forall i | 0 <= i < |runs|
      ensures order[i] < size && Scatter(at, w, size)[order[i]] == runs[i]
    {
      assert order[i] == at[i];
      ScatterPlaces(at, w, size, i);
    }
    forall j | 0 <= j < |low|
      ensures Scatter(at, w, size)[size - 1 - j] == low[j]
    {
      assert size - 1 - j == at[|runs| + j];
      ScatterPlaces(at, w, size, |runs| + j);
    }
  }

  /** What the tables need of a spread: every symbol has as many cells as its count says. */
  ghost predicate Fair(norm: seq<int>, t: seq<nat>) {
    && (forall u: nat :: u < |t| ==> t[u] < |norm|)
    && forall s: nat :: s < |norm| ==> Occurrences(t, s, |t|) == Share(norm[s])
  }

  lemma CellsAreFair(norm: seq<int>, tableLog: nat)
    requires Normalized(norm, tableLog)
    ensures Fair(norm, Cells(norm, tableLog))
  {
    CellsAreSpread(norm, tableLog);
    var t := Cells(norm, tableLog);
    forall u: nat | u < |t|
      ensures t[u] < |norm|
    {
      SpreadSymbols(norm, tableLog, t, u);
    }
    forall s: nat | s < |norm|
      ensures Occurrences(t, s, |t|) == Share(norm[s])
    {
      SpreadShares(norm, tableLog, t, s);
    }
  }

  // ----- laying the spread out in place

  lemma RunsPrefix(norm: seq<int>, n: nat, i: nat)
    requires n < |norm| && i < |Repeat(n, norm[n])|
    ensures |Runs(norm, n)| + i < |Runs(norm, |norm|)|
    ensures Runs(norm, |norm|)[|Runs(norm, n)| + i] == n
  {
    RunsGrow(norm, n + 1, |norm|);
    assert Runs(norm, n + 1)[|Runs(norm, n)| + i] == n;
  }

  lemma {:induction false} RunsGrow(norm: seq<int>, a: nat, b: nat)
    requires a <= b <= |norm|
    ensures Runs(norm, a) <= Runs(norm, b)
  {
    if a < b {
      RunsGrow(norm, a, b - 1);
    }
  }

  /** One move of the walk, past the low-probability area at the end of the table. */
  method NextPosition(size: nat, step: nat, position: nat, highThreshold: nat, ghost k: nat)
    returns (next: nat, ghost k': nat)
    requires highThreshold < size
    requires k < size && position == At(size, step, k) <= highThreshold
    ensures k < k' <= size && next == At(size, step, k') <= highThreshold
    ensures Kept(size, step, highThreshold + 1, k') == Kept(size, step, highThreshold + 1, k) + [position]
  {
    next, k' := (position + step) % size, k + 1;
    while next > highThreshold
      invariant k < k' <= size && next == At(size, step, k')
      invariant Kept(size, step, highThreshold + 1, k') == Kept(size, step, highThreshold + 1, k) + [position]
      decreases size - k'
    {
      AtFullCircle(size, step);
      next, k' := (next + step) % size, k' + 1;
    }
  }

  /** The first n symbols of the runs sit in the first n cells of the walk. */
  ghost predicate Placed(norm: seq<int>, tableLog: nat, limit: nat, t: seq<nat>, n: nat) {
    var runs, order := Runs(norm, |norm|), WalkOrder(tableLog, limit);
    && n <= |runs| <= limit == |order| <= |t|
    && (forall j :: 0 <= j < limit ==> order[j] < limit)
    && forall j :: 0 <= j < n ==> t[order[j]] == runs[j]
  }

  lemma PlaceNext(norm: seq<int>, tableLog: nat, limit: nat, t: seq<nat>, n: nat)
    requires tableLog >= 4 && limit <= Pow2(tableLog)
    requires Placed(norm, tableLog, limit, t, n) && n < |Runs(norm, |norm|)|
    ensures Placed(norm, tableLog, limit, t[WalkOrder(tableLog, limit)[n] := Runs(norm, |norm|)[n]], n + 1)
  {
    WalkIsPermutation(tableLog, limit);
  }

  /** After n placements the walk stands at visit k of its current lap over the cells below the limit. */
  ghost predicate OnWalk(size: nat, step: nat, limit: nat, position: nat, k: nat, n: nat) {
    && k < size && position == At(size, step, k)
    && if limit == 0 then n == k == 0 else position < limit && |Kept(size, step, limit, k)| == n % limit
  }

  lemma NextInLap(n: nat, limit: nat)
    requires limit > 0
    ensures (n + 1) % limit == if n % limit + 1 == limit then 0 else n % limit + 1
  {
    var q := n / limit;
    assert n == q * limit + n % limit;
    if n % limit + 1 == limit {
      DivModUnique(n + 1, q + 1, 0, limit);
    } else {
      DivModUnique(n + 1, q, n % limit + 1, limit);
    }
  }

  /** The next cell of the lap, or the first one of a new lap. */
  lemma WalkOn(tableLog: nat, step: nat, limit: nat, position: nat, k: nat, n: nat, next: nat, k': nat) returns (k'': nat)
    requires step % 2 == 1 && 0 < limit <= Pow2(tableLog)
    requires OnWalk(Pow2(tableLog), step, limit, position, k, n)
    requires k < k' <= Pow2(tableLog) && next == At(Pow2(tableLog), step, k') < limit
    requires Kept(Pow2(tableLog), step, limit, k') == Kept(Pow2(tableLog), step, limit, k) + [position]
    ensures OnWalk(Pow2(tableLog), step, limit, next, k'', n + 1)
  {
    hide At, Kept, Pow2;
    NextInLap(n, limit);
    BackAtZero(tableLog, step, limit, k');
    FirstVisit(Pow2(tableLog), step, limit);
    AtFullCircle(Pow2(tableLog), step);
    k'' := if k' == Pow2(tableLog) then 0 else k';
  }

  lemma FirstVisit(size: nat, step: nat, limit: nat)
    requires size > 0
    ensures At(size, step, 0) == 0 && Kept(size, step, limit, 0) == []
  {
  }

  /** Where the walk stands in its first lap. */
  lemma FirstLap(tableLog: nat, step: nat, limit: nat, position: nat, k: nat, n: nat)
    requires step % 2 == 1 && n < limit <= Pow2(tableLog) && OnWalk(Pow2(tableLog), step, limit, position, k, n)
    ensures n < |Order(Pow2(tableLog), step, limit)| && Order(Pow2(tableLog), step, limit)[n] == position
  {
    BackAtZero(tableLog, step, limit, k);
    DivModUnique(n, 0, n, limit);
  }

  /** The cells of one symbol. */
  method PlaceRun(norm: seq<int>, tableLog: nat, size: nat, step: nat, table: array<nat>, highThreshold: int,
                  symbol: nat, start: nat, ghost k: nat) returns (position: nat, ghost k': nat)
    requires Counts(norm) && 4 <= tableLog && symbol < |norm|
    requires -1 <= highThreshold < table.Length == size == Pow2(tableLog) && step == TableStep(size)
    requires highThreshold == -1 ==> |Runs(norm, |norm|)| == 0
    requires OnWalk(size, step, highThreshold + 1, start, k, |Runs(norm, symbol)|)
    requires |Runs(norm, |norm|)| <= highThreshold + 1 ==>
               Placed(norm, tableLog, highThreshold + 1, table[..], |Runs(norm, symbol)|)
    modifies table
    ensures OnWalk(size, step, highThreshold + 1, position, k', |Runs(norm, symbol + 1)|)
    ensures |Runs(norm, |norm|)| <= highThreshold + 1 ==>
              Placed(norm, tableLog, highThreshold + 1, table[..], |Runs(norm, symbol + 1)|)
    ensures forall j :: highThreshold < j < table.Length ==> table[j] == old(table[j])
  {
    hide OnWalk, At, Kept, Pow2, Placed;
    ghost var limit, before := highThreshold + 1, |Runs(norm, symbol)|;
    position, k' := start, k;
    var nbOccurrences := 0;
    while nbOccurrences < norm[symbol]
      invariant 0 <= nbOccurrences <= |Repeat(symbol, norm[symbol])|
      invariant OnWalk(size, step, limit, position, k', before + nbOccurrences)
      invariant |Runs(norm, |norm|)| <= limit ==> Placed(norm, tableLog, limit, table[..], before + nbOccurrences)
      invariant forall j :: highThreshold < j < table.Length ==> table[j] == old(table[j])
    {
      RunsPrefix(norm, symbol, nbOccurrences);
      StepIsOdd(tableLog);
      OnWalkFacts(size, step, limit, position, k', before + nbOccurrences);
      if |Runs(norm, |norm|)| <= limit {
        FirstLap(tableLog, step, limit, position, k', before + nbOccurrences);
        PlaceNext(norm, tableLog, limit, table[..], before + nbOccurrences);
      }
      label write:
      table[position] := symbol;
      assert table[..] == old@write(table[..])[position := symbol];
      var next;
      ghost var visit;
      next, visit := NextPosition(size, step, position, highThreshold, k');
      k' := WalkOn(tableLog, step, limit, position, k', before + nbOccurrences, next, visit);
      position := next;
      nbOccurrences := nbOccurrences + 1;
    }
  }

  lemma OnWalkFacts(size: nat, step: nat, limit: nat, position: nat, k: nat, n: nat)
    requires OnWalk(size, step, limit, position, k, n) && limit > 0
    ensures k < size && position == At(size, step, k) < limit
  {
  }

  /** The low-probability symbols among the first n fill the table from its end. */
  ghost predicate LowPlaced(norm: seq<int>, t: seq<nat>, n: nat)
    requires n <= |norm|
  {
    && |LowSymbols(norm, n)| <= |t|
    && forall j :: 0 <= j < |LowSymbols(norm, n)| ==> t[|t| - 1 - j] == LowSymbols(norm, n)[j]
  }

  lemma LowPlacedNext(norm: seq<int>, t: seq<nat>, n: nat)
    requires Counts(norm) && n < |norm| && |LowSymbols(norm, |norm|)| <= |t| && LowPlaced(norm, t, n)
    ensures norm[n] != -1 ==> LowPlaced(norm, t, n + 1) && LowSymbols(norm, n + 1) == LowSymbols(norm, n)
    ensures norm[n] == -1 ==>
              && |LowSymbols(norm, n + 1)| == |LowSymbols(norm, n)| + 1 <= |t|
              && LowPlaced(norm, t[|t| - 1 - |LowSymbols(norm, n)| := n], n + 1)
  {
    LowSymbolsGrow(norm, n + 1, |norm|);
  }

  lemma {:induction false} LowSymbolsGrow(norm: seq<int>, a: nat, b: nat)
    requires a <= b <= |norm|
    ensures |LowSymbols(norm, a)| <= |LowSymbols(norm, b)|
  {
    if a < b {
      LowSymbolsGrow(norm, a, b - 1);
    }
  }

  lemma AllPlaced(norm: seq<int>, tableLog: nat, t: seq<nat>)
    requires Counts(norm) && |t| == Pow2(tableLog) == Start(norm, |norm|)
    requires Placed(norm, tableLog, |Runs(norm, |norm|)|, t, |Runs(norm, |norm|)|)
    requires LowPlaced(norm, t, |norm|)
    ensures IsSpread(norm, tableLog, t)
  {
    LowAndRuns(norm, |norm|);
  }

  /** The low-probability symbols fit the table, and leave a cell for the others if there are any. */
  predicate LowFits(norm: seq<int>, size: nat) {
    |LowSymbols(norm, |norm|)| < size || (|LowSymbols(norm, |norm|)| == size && Runs(norm, |norm|) == [])
  }

  /** The occurrences of the other symbols take the walk round a whole number of laps. */
  predicate WholeLaps(norm: seq<int>, size: nat)
    requires LowFits(norm, size)
  {
    var limit := size - |LowSymbols(norm, |norm|)|;
    limit == 0 || |Runs(norm, |norm|)| % limit == 0
  }

  /** Counts that sum to the table size make one lap. */
  lemma OneLap(norm: seq<int>, size: nat)
    requires Counts(norm) && Start(norm, |norm|) == size > 0
    ensures LowFits(norm, size) && WholeLaps(norm, size)
    ensures |Runs(norm, |norm|)| == size - |LowSymbols(norm, |norm|)|
  {
    LowAndRuns(norm, |norm|);
  }

  /** For counts that sum to no more than the table size, some of them not of low probability, the laps are
      whole exactly when the sum is the size. */
  lemma LapsWithinSize(norm: seq<int>, size: nat)
    requires Counts(norm) && Start(norm, |norm|) <= size && Runs(norm, |norm|) != []
    ensures LowFits(norm, size) && (WholeLaps(norm, size) <==> Start(norm, |norm|) == size)
  {
    LowAndRuns(norm, |norm|);
    hide Start, Runs, LowSymbols;
    PartOfLap(|Runs(norm, |norm|)|, size - |LowSymbols(norm, |norm|)|);
  }

  lemma PartOfLap(runs: nat, limit: nat)
    requires 0 < runs <= limit
    ensures runs % limit == 0 <==> runs == limit
  {
    if runs < limit {
      DivModUnique(runs, 0, runs, limit);
    } else {
      DivModUnique(runs, 1, 0, limit);
    }
  }

  /** A test for a whole number of laps is not a test for one: a single count of 64 goes twice round 32 cells,
      and one symbol of low probability goes nowhere. */
  lemma LapsNotOne()
    ensures var norm := [64]; Counts(norm) && LowFits(norm, 32) && WholeLaps(norm, 32) && Start(norm, 1) != 32
    ensures var norm := [-1]; Counts(norm) && LowFits(norm, 32) && WholeLaps(norm, 32) && Start(norm, 1) != 32
  {
    var twice, none: seq<int> := [64], [-1];
    assert Runs(twice, 1) == Runs(twice, 0) + Repeat(0, 64) && Start(twice, 1) == Start(twice, 0) + 64;
    assert LowSymbols(twice, 1) == LowSymbols(twice, 0) + [];
    assert Runs(none, 1) == Runs(none, 0) + Repeat(0, -1) && Start(none, 1) == Start(none, 0) + 1;
    assert LowSymbols(none, 1) == LowSymbols(none, 0) + [0];
  }

  lemma WalkStarts(norm: seq<int>, tableLog: nat, limit: nat, t: seq<nat>)
    requires tableLog >= 4 && limit <= |t| == Pow2(tableLog) && (limit == 0 ==> Runs(norm, |norm|) == [])
    ensures OnWalk(|t|, TableStep(|t|), limit, 0, 0, 0)
    ensures |Runs(norm, |norm|)| <= limit ==> Placed(norm, tableLog, limit, t, 0)
  {
    WalkIsPermutation(tableLog, limit);
    assert forall j :: 0 <= j < limit ==> WalkOrder(tableLog, limit)[j] in WalkOrder(tableLog, limit);
    FirstVisit(|t|, TableStep(|t|), limit);
  }

  /** The spreading loop both table builders run. Its final test of the position does not say that all cells
      have been filled once, but that the walk has gone round a whole number of times; counts that sum to
      the table size pass it, and give the spread. */
  method SpreadSymbolsLoop(norm: seq<int>, tableLog: nat, table: array<nat>, highThreshold: int) returns (ok: bool)
    requires Counts(norm) && MIN_TABLELOG <= tableLog <= MAX_TABLELOG
    requires table.Length == Pow2(tableLog) && LowFits(norm, table.Length)
    requires -1 <= highThreshold == table.Length - 1 - |LowSymbols(norm, |norm|)|
    requires LowPlaced(norm, table[..], |norm|)
    modifies table
    ensures ok <==> WholeLaps(norm, table.Length)
    ensures Start(norm, |norm|) == table.Length ==> ok && table[..] == Cells(norm, tableLog)
  {
    hide At, Kept, Pow2, Placed;
    var size, step := table.Length, TableStep(table.Length);
    var position, symbol := 0, 0;
    ghost var k: nat, runs, limit := 0, Runs(norm, |norm|), highThreshold + 1;
    WalkStarts(norm, tableLog, limit, table[..]);
    while symbol < |norm|
      invariant 0 <= symbol <= |norm|
      invariant OnWalk(size, step, limit, position, k, |Runs(norm, symbol)|)
      invariant |runs| <= limit ==> Placed(norm, tableLog, limit, table[..], |Runs(norm, symbol)|)
      invariant forall j :: highThreshold < j < table.Length ==> table[j] == old(table[j])
    {
      position, k := PlaceRun(norm, tableLog, size, step, table, highThreshold, symbol, position, k);
      symbol := symbol + 1;
    }
    ok := position == 0;
    if limit > 0 {
      StepIsOdd(tableLog);
      BackAtZero(tableLog, step, limit, k);
    }
    if Start(norm, |norm|) == table.Length {
      OneLap(norm, table.Length);
      AllPlaced(norm, tableLog, table[..]);
      CellsAreSpread(norm, tableLog);
      SpreadUnique(norm, tableLog, table[..], Cells(norm, tableLog));
    }
  }
}
