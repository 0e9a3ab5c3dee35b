/** Scaling symbol counts to a distribution over 2^tableLog cells without losing or inventing a cell. */
module Normalization {
  import opened Powers
  import opened Wrappers
  import opened Spread

  const DEFAULT_TABLELOG: nat := 14
  const NOT_YET_ASSIGNED := -2

  /** The sum of the first n counts. */
  function Sum(count: seq<nat>, n: nat): nat
    requires n <= |count|
  {
    if n == 0 then 0 else Sum(count, n - 1) + count[n - 1]
  }

  /** Cells given out, not counting symbols that have yet to be assigned. */
  function Given(norm: seq<int>, n: nat): nat
    requires n <= |norm|
  {
    if n == 0 then 0 else Given(norm, n - 1) + if norm[n - 1] == NOT_YET_ASSIGNED then 0 else Share(norm[n - 1])
  }

  /** The counts of the symbols that have yet to be assigned. */
  function Open(norm: seq<int>, count: seq<nat>, n: nat): nat
    requires n <= |norm| && n <= |count|
  {
    if n == 0 then 0 else Open(norm, count, n - 1) + if norm[n - 1] == NOT_YET_ASSIGNED then count[n - 1] else 0
  }

  /** What normalization promises: as many cells as the table has, none for an absent symbol, one of low
      probability for a present one whose count is at most `low`, and at least one for every other. */
  ghost predicate IsNormalized(norm: seq<int>, count: seq<nat>, low: nat, tableLog: nat) {
    && |norm| == |count| && Start(norm, |norm|) == Pow2(tableLog)
    && forall s :: 0 <= s < |norm| ==> Fitting(norm[s], count[s], low)
  }

  predicate Fitting(x: int, count: nat, low: nat) {
    x >= -1 && (x == 0 <==> count == 0) && (x == -1 <==> 0 < count <= low)
  }

  lemma {:induction false} SumBound(count: seq<nat>, n: nat, m: nat)
    requires n <= |count| && forall s :: 0 <= s < n ==> count[s] <= m
    ensures Sum(count, n) <= n * m
  {
    if n > 0 {
      SumBound(count, n - 1, m);
      assert n * m == (n - 1) * m + m;
    }
  }

  lemma {:induction false} SumAt(count: seq<nat>, n: nat, s: nat)
    requires s < n <= |count|
    ensures count[s] <= Sum(count, n)
  {
    if s < n - 1 {
      SumAt(count, n - 1, s);
    }
  }

  // ----- the fixed-point normalization that cannot fail to add up

  /** The state after symbols have been given -1, 1 or nothing yet. */
  ghost predicate Shaped(norm: seq<int>, count: seq<nat>, low: nat, n: nat)
  {
    && n <= |norm| && n <= |count|
    && forall s :: 0 <= s < n ==>
         && (norm[s] == 0 <==> count[s] == 0) && -2 <= norm[s] <= 1
         && (norm[s] == -1 ==> count[s] <= low) && (norm[s] in {1, NOT_YET_ASSIGNED} ==> count[s] > low)
  }

  lemma {:induction false} GivenBound(norm: seq<int>, count: seq<nat>, low: nat, n: nat)
    requires Shaped(norm, count, low, n)
    ensures Given(norm, n) <= n && Given(norm, n) + Open(norm, count, n) <= Sum(count, n)
  {
    if n > 0 {
      GivenBound(norm, count, low, n - 1);
    }
  }

  /** Counts above the threshold that are given away leave more room. */
  lemma {:induction false} GivenStrict(norm: seq<int>, count: seq<nat>, low: nat, n: nat, s: nat)
    requires Shaped(norm, count, low, n) && s < n && count[s] >= 2
    ensures Given(norm, n) < Sum(count, n)
  {
    if s < n - 1 {
      GivenStrict(norm, count, low, n - 1, s);
    } else {
      GivenBound(norm, count, low, n - 1);
    }
  }

  lemma {:induction false} NothingOpen(norm: seq<int>, count: seq<nat>, low: nat, n: nat)
    requires Shaped(norm, count, low, n)
    ensures Open(norm, count, n) == 0 ==> forall s :: 0 <= s < n ==> norm[s] != NOT_YET_ASSIGNED
    ensures Given(norm, n) == n ==> forall s :: 0 <= s < n ==> norm[s] in {-1, 1}
  {
    if n > 0 {
      NothingOpen(norm, count, low, n - 1);
      GivenBound(norm, count, low, n - 1);
    }
  }

  lemma {:induction false} GivenIsStart(norm: seq<int>, n: nat)
    requires n <= |norm| && forall s :: 0 <= s < n ==> norm[s] != NOT_YET_ASSIGNED
    ensures Given(norm, n) == Start(norm, n)
  {
    if n > 0 {
      GivenIsStart(norm, n - 1);
    }
  }

  lemma {:induction false} StartUpdate(norm: seq<int>, s: nat, x: int, n: nat)
    requires n <= |norm| && s < |norm|
    ensures Start(norm[s := x], n) == Start(norm, n) + if s < n then Share(x) - Share(norm[s]) else 0
  {
    if n > 0 {
      StartUpdate(norm, s, x, n - 1);
    }
  }

  lemma {:induction false} PassFrame(norm: seq<int>, count: seq<nat>, s: nat, x: int, n: nat)
    requires n <= s < |norm| && n <= |count|
    ensures Given(norm[s := x], n) == Given(norm, n) && Open(norm[s := x], count, n) == Open(norm, count, n)
  {
    if n > 0 {
      PassFrame(norm, count, s, x, n - 1);
    }
  }

  /** Giving one cell to a symbol that was still open. */
  lemma {:induction false} GiveOne(norm: seq<int>, count: seq<nat>, s: nat, n: nat)
    requires s < n <= |norm| && n <= |count| && norm[s] == NOT_YET_ASSIGNED
    ensures Given(norm[s := 1], n) == Given(norm, n) + 1
    ensures Open(norm[s := 1], count, n) + count[s] == Open(norm, count, n)
  {
    if s < n - 1 {
      GiveOne(norm, count, s, n - 1);
    } else {
      PassFrame(norm, count, s, 1, n - 1);
    }
  }

  /** The first pass over the counts. */
  method FirstPass(count: seq<nat>, total: nat, lowThreshold: nat, lowOne: nat)
    returns (norm: seq<int>, distributed: nat, rest: nat)
    requires total == Sum(count, |count|)
    ensures |norm| == |count| && Shaped(norm, count, lowThreshold, |count|)
    ensures forall s :: 0 <= s < |count| ==>
              norm[s] == if count[s] == 0 then 0 else if count[s] <= lowThreshold then -1
                         else if count[s] <= lowOne then 1 else -2
    ensures distributed == Given(norm, |norm|) && rest == Open(norm, count, |norm|)
  {
    norm, distributed := seq(|count|, _ => 0), 0;
    var left: int := total;
    for s := 0 to |count|
      invariant |norm| == |count| && Shaped(norm, count, lowThreshold, s)
      invariant forall i :: 0 <= i < s ==>
                  norm[i] == if count[i] == 0 then 0 else if count[i] <= lowThreshold then -1
                             else if count[i] <= lowOne then 1 else -2
      invariant distributed == Given(norm, s) && left + Sum(count, s) == total + Open(norm, count, s)
    {
      var x := if count[s] == 0 then 0 else if count[s] <= lowThreshold then -1
               else if count[s] <= lowOne then 1 else NOT_YET_ASSIGNED;
      PassFrame(norm, count, s, x, s);
      norm := norm[s := x];
      if x == -1 || x == 1 {
        distributed := distributed + 1;
        left := left - count[s];
      }
    }
    rest := left;
  }

  /** The second pass, when what is left might round to nothing. */
  method SecondPass(norm0: seq<int>, count: seq<nat>, distributed0: nat, rest0: nat, lowOne: nat, ghost low: nat)
    returns (norm: seq<int>, distributed: nat, rest: nat)
    requires |norm0| == |count| && Shaped(norm0, count, low, |count|)
    requires distributed0 == Given(norm0, |norm0|) && rest0 == Open(norm0, count, |norm0|)
    ensures |norm| == |count| && Shaped(norm, count, low, |count|)
    ensures forall s :: 0 <= s < |count| ==>
              norm[s] == if norm0[s] == -2 && count[s] <= lowOne then 1 else norm0[s]
    ensures distributed == Given(norm, |norm|) && rest == Open(norm, count, |norm|)
  {
    norm, distributed, rest := norm0, distributed0, rest0;
    for s := 0 to |count|
      invariant |norm| == |count| && Shaped(norm, count, low, |count|) && norm[s..] == norm0[s..]
      invariant forall i :: 0 <= i < s ==> norm[i] == if norm0[i] == -2 && count[i] <= lowOne then 1 else norm0[i]
      invariant distributed == Given(norm, |norm|) && rest == Open(norm, count, |norm|)
    {
      assert norm[s] == norm0[s];
      if norm[s] == NOT_YET_ASSIGNED && count[s] <= lowOne {
        GiveOne(norm, count, s, |norm|);
        norm := norm[s := 1];
        distributed := distributed + 1;
        rest := rest - count[s];
      }
    }
  }

  /** Some symbol has more than its share of one cell. */
  ghost predicate HasLarge(count: seq<nat>, low: nat) {
    exists s :: 0 <= s < |count| && count[s] > low
  }

  method FindMax(count: seq<nat>) returns (maxV: nat)
    requires |count| > 0
    ensures maxV < |count| && forall s :: 0 <= s < |count| ==> count[s] <= count[maxV]
    ensures forall s :: 0 <= s < maxV ==> count[s] < count[maxV]
  {
    var maxC := 0;
    maxV := 0;
    for s := 0 to |count|
      invariant maxV < |count| && forall i :: 0 <= i < s ==> count[i] <= maxC
      invariant if maxC == 0 then maxV == 0 else maxC == count[maxV] && forall i :: 0 <= i < maxV ==> count[i] < maxC
    {
      if count[s] > maxC {
        maxV, maxC := s, count[s];
      }
    }
  }

  /** Every positive count has been served in each of the rounds, and those before s in one more. */
  predicate InRounds(norm: seq<int>, norm0: seq<int>, rounds: nat, s: nat) {
    && |norm| == |norm0|
    && forall i :: 0 <= i < |norm| ==>
         norm[i] == if norm0[i] <= 0 then norm0[i] else if i < s then norm0[i] + rounds + 1 else norm0[i] + rounds
  }

  /** So many cells have been handed round, to no symbol two more than to another. */
  ghost predicate HandedRound(norm: seq<int>, norm0: seq<int>, cells: nat) {
    && |norm| == |norm0| && Start(norm, |norm|) == Start(norm0, |norm0|) + cells
    && exists rounds: nat, s: nat :: InRounds(norm, norm0, rounds, s)
  }

  /** Hands the remaining cells round to the symbols with a positive count. */
  method HandRound(norm0: seq<int>, toDistribute0: nat, ghost positive: nat) returns (norm: seq<int>)
    requires positive < |norm0| && norm0[positive] > 0
    ensures HandedRound(norm, norm0, toDistribute0)
  {
    hide Start;
    norm := norm0;
    var s, toDistribute := 0, toDistribute0;
    ghost var rounds := 0;
    while toDistribute > 0
      invariant 0 <= s < |norm| == |norm0| && norm[positive] > 0
      invariant Start(norm, |norm|) + toDistribute == Start(norm0, |norm0|) + toDistribute0
      invariant InRounds(norm, norm0, rounds, s)
      decreases toDistribute, if s <= positive then positive - s else positive + |norm| - s
    {
      if norm[s] > 0 {
        StartUpdate(norm, s, norm[s] + 1, |norm|);
        toDistribute := toDistribute - 1;
        norm := norm[s := norm[s] + 1];
      }
      NextIndex(s, |norm|);
      s := (s + 1) % |norm|;
      if s == 0 {
        rounds := rounds + 1;
      }
    }
  }

  lemma NextIndex(s: nat, n: nat)
    requires s < n
    ensures (s + 1) % n == if s + 1 == n then 0 else s + 1
  {
    if s + 1 == n {
      DivModUnique(s + 1, 1, 0, n);
    } else {
      DivModUnique(s + 1, 0, s + 1, n);
    }
  }

  // ----- the scaled rest

  /** `rStep`, on 62 - tableLog fractional bits: the step with which the open counts walk from `mid` to the
      cells that are left. */
  lemma StepReachesEnd(v: nat, toDistribute: nat, rest: nat, rStep: nat)
    requires v >= 34 && 1 <= rest < Pow2(32)
    requires rStep == (Shl(toDistribute, v) + (Pow2(v - 1) - 1)) / rest
    ensures Shr(Pow2(v - 1) - 1 + rest * rStep, v) == toDistribute
  {
    var mid := Pow2(v - 1) - 1;
    var n := Shl(toDistribute, v) + mid;
    DivMod(n, rest);
    assert rest * rStep == rStep * rest;
    var r := n % rest;
    ShlIsTimes(toDistribute, v);
    ShrIsDiv(mid + rest * rStep, v);
    Pow2Strict(32, v - 1);
    DivModUnique(mid + rest * rStep, toDistribute, 2 * mid - r, Pow2(v));
  }

  lemma MidIsZero(v: nat)
    requires v >= 1
    ensures Shr(Pow2(v - 1) - 1, v) == 0
  {
    ShrIsDiv(Pow2(v - 1) - 1, v);
    DivModUnique(Pow2(v - 1) - 1, 0, Pow2(v - 1) - 1, Pow2(v));
  }

  /** The open counts before symbol s, with the norms that were there before. */
  lemma {:induction false} OpenNext(norm: seq<int>, count: seq<nat>, s: nat)
    requires s < |norm| && s < |count|
    ensures Open(norm, count, s + 1) == Open(norm, count, s) + if norm[s] == NOT_YET_ASSIGNED then count[s] else 0
    ensures Given(norm, s + 1) == Given(norm, s) + if norm[s] == NOT_YET_ASSIGNED then 0 else Share(norm[s])
  {
  }

  lemma StartPut(norm: seq<int>, s: nat, x: int)
    requires s < |norm|
    ensures Start(norm[s := x], s + 1) == Start(norm, s) + Share(x)
    ensures Start(norm, s + 1) == Start(norm, s) + Share(norm[s])
  {
    StartUpdate(norm, s, x, s);
  }

  /** The step and the cells that one open symbol's count walks over with it. */
  function StepOn(toDistribute: nat, rest: nat, v: nat): nat
    requires v >= 1 && rest >= 1
  {
    (Shl(toDistribute, v) + (Pow2(v - 1) - 1)) / rest
  }

  function Weight(norm: seq<int>, count: seq<nat>, s: nat, rStep: nat, v: nat): int
    requires s < |norm| == |count| && v >= 1
  {
    var mid := Pow2(v - 1) - 1;
    Shr(mid + Open(norm, count, s + 1) * rStep, v) - Shr(mid + Open(norm, count, s) * rStep, v)
  }

  /** Every open symbol gets its proportional share to within one cell. */
  lemma WeightIsFair(norm: seq<int>, count: seq<nat>, s: nat, rStep: nat, v: nat)
    requires s < |norm| == |count| && v >= 1 && norm[s] == NOT_YET_ASSIGNED
    ensures var w := Weight(norm, count, s, rStep, v) * Pow2(v);
            count[s] * rStep - Pow2(v) < w < count[s] * rStep + Pow2(v)
  {
    var mid, p := Pow2(v - 1) - 1, Pow2(v);
    var a, b: nat := mid + Open(norm, count, s) * rStep, mid + Open(norm, count, s + 1) * rStep;
    SumTimes(Open(norm, count, s), count[s], rStep);
    ShrIsDiv(a, v);
    ShrIsDiv(b, v);
    DivMod(a, p);
    DivMod(b, p);
    assert (b / p - a / p) * p == (b / p) * p - (a / p) * p;
  }

  /** Every open symbol has its weight, the others keep what they have. */
  ghost predicate Weighed(norm: seq<int>, norm0: seq<int>, count: seq<nat>, n: nat, rStep: nat, v: nat)
    requires v >= 1
  {
    && n <= |norm| == |norm0| == |count|
    && forall s :: 0 <= s < n ==>
         if norm0[s] == NOT_YET_ASSIGNED then norm[s] == Weight(norm0, count, s, rStep, v) >= 1 else norm[s] == norm0[s]
  }

  /** The last loop: every open symbol gets the cells its count walks over, and it fails exactly when there
      are none for one. */
  method Scale(norm0: seq<int>, count: seq<nat>, toDistribute: nat, rest: nat, tableLog: nat, ghost low: nat)
    returns (r: Result<seq<int>>)
    requires tableLog <= 20 && |norm0| == |count| && Shaped(norm0, count, low, |count|)
    requires rest == Open(norm0, count, |count|) && 1 <= rest < Pow2(32)
    requires Given(norm0, |norm0|) + toDistribute == Pow2(tableLog)
    ensures var v := 62 - tableLog;
            var rStep := StepOn(toDistribute, rest, v);
            if r.Ok? then IsNormalized(r.value, count, low, tableLog) && Weighed(r.value, norm0, count, |count|, rStep, v)
            else
              && r.error == "GENERIC"
              && exists s :: 0 <= s < |count| && norm0[s] == NOT_YET_ASSIGNED && Weight(norm0, count, s, rStep, v) < 1
  {
    hide Pow2, Shr, Shl, Start, Given, Open, Weighed;
    var vStepLog := 62 - tableLog;
    var mid := Pow2(vStepLog - 1) - 1;
    var rStep := (Shl(toDistribute, vStepLog) + mid) / rest;
    var norm, tmpTotal: nat := norm0, mid;
    NothingYet(norm0, count, vStepLog);
    NothingWeighed(norm0, count, rStep, vStepLog);
    for s := 0 to |count|
      invariant |norm| == |count| && norm[s..] == norm0[s..]
      invariant tmpTotal == mid + Open(norm0, count, s) * rStep
      invariant Start(norm, s) == Given(norm0, s) + Shr(tmpTotal, vStepLog)
      invariant forall i :: 0 <= i < s ==> Fitting(norm[i], count[i], low)
      invariant Weighed(norm, norm0, count, s, rStep, vStepLog)
    {
      assert norm[s] == norm0[s];
      ghost var before := norm;
      OpenNext(norm0, count, s);
      StartPut(norm, s, norm[s]);
      if norm[s] == NOT_YET_ASSIGNED {
        var step: nat := count[s] * rStep;
        var end := tmpTotal + step;
        SumTimes(Open(norm0, count, s), count[s], rStep);
        ShrMonotone(tmpTotal, end, vStepLog);
        var weight := Shr(end, vStepLog) - Shr(tmpTotal, vStepLog);
        assert weight == Weight(norm0, count, s, rStep, vStepLog);
        if weight < 1 {
          return Err("GENERIC");
        }
        StartPut(norm, s, weight);
        norm := norm[s := weight];
        tmpTotal := end;
      }
      WeighedNext(before, norm, norm0, count, s, rStep, vStepLog);
    }
    StepReachesEnd(vStepLog, toDistribute, rest, rStep);
    r := Ok(norm);
  }

  lemma NothingWeighed(norm0: seq<int>, count: seq<nat>, rStep: nat, v: nat)
    requires |norm0| == |count| && v >= 1
    ensures Weighed(norm0, norm0, count, 0, rStep, v)
  {
  }

  lemma WeighedNext(before: seq<int>, norm: seq<int>, norm0: seq<int>, count: seq<nat>, s: nat, rStep: nat, v: nat)
    requires v >= 1 && s < |count| && Weighed(before, norm0, count, s, rStep, v)
    requires |norm| == |before| && norm == before[s := norm[s]]
    requires if norm0[s] == NOT_YET_ASSIGNED then norm[s] == Weight(norm0, count, s, rStep, v) >= 1 else norm[s] == norm0[s]
    ensures Weighed(norm, norm0, count, s + 1, rStep, v)
  {
    hide Weight;
  }

  lemma NothingYet(norm: seq<int>, count: seq<nat>, v: nat)
    requires v >= 1
    ensures Start(norm, 0) == 0 && Given(norm, 0) == 0 && Open(norm, count, 0) == 0
    ensures Shr(Pow2(v - 1) - 1, v) == 0
  {
    MidIsZero(v);
  }

  // ----- when the table is large enough

  /** `FSE_minTableLog` */
  function MinTableLog(srcSize: nat, maxSymbolValue: nat): nat
    requires srcSize > 1 && maxSymbolValue > 0
  {
    var minBitsSrc, minBitsSymbols := Log2(srcSize - 1) + 1, Log2(maxSymbolValue) + 2;
    if minBitsSrc < minBitsSymbols then minBitsSrc else minBitsSymbols
  }

  /** The least table log whose cells are two for every symbol, or one for everything in the source. */
  lemma MinTableLogFits(total: nat, symbols: nat, tableLog: nat)
    requires total > 1 && symbols > 1
    ensures tableLog >= MinTableLog(total, symbols - 1) <==> 2 * symbols <= Pow2(tableLog) || total <= Pow2(tableLog)
  {
    if tableLog > Log2(symbols - 1) + 1 {
      Pow2Monotone(Log2(symbols - 1) + 2, tableLog);
    } else {
      Pow2Monotone(tableLog, Log2(symbols - 1) + 1);
    }
    if tableLog > Log2(total - 1) {
      Pow2Monotone(Log2(total - 1) + 1, tableLog);
    } else {
      Pow2Monotone(tableLog, Log2(total - 1));
    }
  }

  /** The counts are of a source the tables can represent. */
  predicate Proper(count: seq<nat>, total: nat, tableLog: nat) {
    && |count| >= 2 && 2 <= total < Pow2(32) && total == Sum(count, |count|)
    && MIN_TABLELOG <= tableLog <= MAX_TABLELOG && tableLog >= MinTableLog(total, |count| - 1)
  }

  lemma LowThreshold(total: nat, tableLog: nat)
    ensures var low := Shr(total, tableLog); low * Pow2(tableLog) <= total < (low + 1) * Pow2(tableLog)
  {
    ShrIsDiv(total, tableLog);
    DivMod(total, Pow2(tableLog));
    assert (total / Pow2(tableLog) + 1) * Pow2(tableLog) == (total / Pow2(tableLog)) * Pow2(tableLog) + Pow2(tableLog);
  }

  lemma SmallTotal(total: nat, tableLog: nat)
    requires total <= Pow2(tableLog)
    ensures Shr(total, tableLog) == if total == Pow2(tableLog) then 1 else 0
  {
    ShrIsDiv(total, tableLog);
    DivModUnique(total, if total == Pow2(tableLog) then 1 else 0, if total == Pow2(tableLog) then 0 else total, Pow2(tableLog));
  }

  /** With one large count, cells are left however many small ones are served. */
  lemma CellsLeft(norm: seq<int>, count: seq<nat>, total: nat, tableLog: nat)
    requires Proper(count, total, tableLog) && |norm| == |count|
    requires Shaped(norm, count, Shr(total, tableLog), |count|) && HasLarge(count, Shr(total, tableLog))
    ensures Given(norm, |norm|) < Pow2(tableLog)
  {
    hide Shr, Pow2, Sum, Given, Open, MinTableLog;
    MinTableLogFits(total, |count|, tableLog);
    GivenBound(norm, count, Shr(total, tableLog), |count|);
    if total == Pow2(tableLog) {
      SmallTotal(total, tableLog);
      var s :| 0 <= s < |count| && count[s] > Shr(total, tableLog);
      GivenStrict(norm, count, Shr(total, tableLog), |count|, s);
    }
  }

  /** With none, every count is 1, there are as many symbols as cells, and each takes one. */
  lemma NoCellsLeft(norm: seq<int>, count: seq<nat>, total: nat, tableLog: nat)
    requires Proper(count, total, tableLog) && |norm| == |count|
    requires Shaped(norm, count, Shr(total, tableLog), |count|) && !HasLarge(count, Shr(total, tableLog))
    ensures Given(norm, |norm|) == Pow2(tableLog)
  {
    hide Shr, Pow2, Sum, Given, MinTableLog, Shaped;
    var low := Shr(total, tableLog);
    MinTableLogFits(total, |count|, tableLog);
    SumBound(count, |count|, low);
    LowThreshold(total, tableLog);
    if 2 * |count| <= Pow2(tableLog) {
      NotHalf(|count|, low, Pow2(tableLog), total);
    }
    SmallTotal(total, tableLog);
    OnesGiven(norm, count, low, |count|);
  }

  lemma NotHalf(n: nat, low: nat, p: nat, total: nat)
    requires 2 * n <= p && low * p <= total && total <= n * low
    ensures total == 0
  {
    MulMonotone(2 * n, p, low);
    assert (2 * n) * low == 2 * (n * low);
    assert p * low == low * p;
  }

  lemma {:induction false} OnesGiven(norm: seq<int>, count: seq<nat>, low: nat, n: nat)
    requires Shaped(norm, count, low, n) && low <= 1 && forall s :: 0 <= s < |count| ==> count[s] <= low
    ensures Given(norm, n) == Sum(count, n)
  {
    if n > 0 {
      OnesGiven(norm, count, low, n - 1);
    }
  }

  // ----- the classes of the symbols, and that every open one gets a cell

  /** The first pass: a symbol of no more than a cell's share has low probability, one of no more than one
      and a half gets one cell, and the others stay open. */
  function FirstClass(c: nat, total: nat, cells: nat): int {
    if c == 0 then 0 else if c * cells <= total then -1 else if 2 * c * cells <= 3 * total then 1 else -2
  }

  function FirstClasses(count: seq<nat>, total: nat, cells: nat): (r: seq<int>)
    ensures |r| == |count|
  {
    seq(|count|, s requires 0 <= s < |count| => FirstClass(count[s], total, cells))
  }

  /** The second pass: one cell for a symbol of no more than one and a half shares of what is left. */
  function SecondClasses(norm: seq<int>, count: seq<nat>, rest: nat, left: nat): (r: seq<int>)
    requires |norm| == |count|
    ensures |r| == |count|
  {
    seq(|count|, s requires 0 <= s < |count| => if norm[s] == -2 && 2 * count[s] * left <= 3 * rest then 1 else norm[s])
  }

  /** The second pass is there for open symbols that have more than one and a half cells on average. */
  ghost predicate TakesSecond(norm: seq<int>, count: seq<nat>, total: nat, cells: nat)
    requires |norm| == |count| && cells > 0
  {
    && Given(norm, |norm|) < cells
    && Open(norm, count, |norm|) / (cells - Given(norm, |norm|)) > 3 * total / (2 * cells)
  }

  ghost function Classes(count: seq<nat>, total: nat, cells: nat): (r: seq<int>)
    requires cells > 0
    ensures |r| == |count|
  {
    var norm := FirstClasses(count, total, cells);
    if TakesSecond(norm, count, total, cells)
    then SecondClasses(norm, count, Open(norm, count, |norm|), cells - Given(norm, |norm|))
    else norm
  }

  lemma Thresholds(total: nat, tableLog: nat)
    ensures Shr(total, tableLog) == total / Pow2(tableLog)
    ensures Shr(total * 3, tableLog + 1) == 3 * total / (2 * Pow2(tableLog))
  {
    ShrIsDiv(total, tableLog);
    ShrIsDiv(total * 3, tableLog + 1);
  }

  lemma AtMost(c: nat, a: nat, b: nat)
    requires b > 0
    ensures c <= a / b <==> c * b <= a
  {
    DivMod(a, b);
    if c <= a / b {
      MulMonotone(c, a / b, b);
    } else {
      MulMonotone(a / b + 1, c, b);
    }
  }

  lemma NotNegative(a: nat, b: nat)
    requires b > 0
    ensures a / b >= 0
  {
  }

  lemma FirstClassed(norm: seq<int>, count: seq<nat>, total: nat, cells: nat)
    requires |norm| == |count| && cells > 0
    requires forall s :: 0 <= s < |count| ==>
               norm[s] == if count[s] == 0 then 0 else if count[s] <= total / cells then -1
                          else if count[s] <= 3 * total / (2 * cells) then 1 else -2
    ensures norm == FirstClasses(count, total, cells)
  {
    forall s: nat | s < |count|
      ensures norm[s] == FirstClass(count[s], total, cells)
    {
      AtMost(count[s], total, cells);
      AtMost(count[s], 3 * total, 2 * cells);
      assert count[s] * (2 * cells) == 2 * count[s] * cells;
    }
  }

  lemma SecondClassed(norm: seq<int>, norm0: seq<int>, count: seq<nat>, rest: nat, left: nat)
    requires |norm| == |norm0| == |count| && left > 0
    requires forall s :: 0 <= s < |count| ==>
               norm[s] == if norm0[s] == -2 && count[s] <= (rest * 3) / (left * 2) then 1 else norm0[s]
    ensures norm == SecondClasses(norm0, count, rest, left)
  {
    forall s: nat | s < |count|
      ensures norm[s] == if norm0[s] == -2 && 2 * count[s] * left <= 3 * rest then 1 else norm0[s]
    {
      AtMost(count[s], rest * 3, left * 2);
      assert count[s] * (left * 2) == 2 * count[s] * left;
    }
  }

  lemma {:induction false} SecondGives(norm: seq<int>, norm0: seq<int>, count: seq<nat>, n: nat)
    requires |norm| == |norm0| == |count| && n <= |count|
    requires forall s :: 0 <= s < |count| ==> norm[s] == norm0[s] || (norm0[s] == NOT_YET_ASSIGNED && norm[s] == 1)
    ensures Given(norm0, n) <= Given(norm, n) && Open(norm, count, n) <= Open(norm0, count, n)
  {
    if n > 0 {
      SecondGives(norm, norm0, count, n - 1);
    }
  }

  /** What is still open after the second pass has its share of one cell: so few cells are left only if a third
      of all have gone to rare symbols, which leaves too few symbols for the second pass to use up as many. */
  lemma ShareAfterSecond(cells: nat, total: nat, symbols: nat, given0: nat, rest0: nat, given: nat, rest: nat, c: nat)
    requires given0 <= given < symbols && given0 < cells && rest <= rest0 && given0 + rest0 <= total
    requires 2 * symbols <= cells || total <= cells
    requires rest0 / (cells - given0) > 3 * total / (2 * cells)
    requires c > (rest0 * 3) / ((cells - given0) * 2)
    ensures given < cells && c * (cells - given) >= rest
  {
    var left0 := cells - given0;
    FewLeft(cells, total, rest0, left0);
    AtMost(c, rest0 * 3, left0 * 2);
    assert 3 * (given - given0) <= left0;
    ThreeHalves(c, left0, cells - given, rest0);
  }

  lemma FewLeft(cells: nat, total: nat, rest0: nat, left0: nat)
    requires 0 < left0 <= cells && rest0 <= total && cells - left0 + rest0 <= total
    requires rest0 / left0 > 3 * total / (2 * cells)
    ensures 3 * left0 < 2 * cells && cells < total
  {
    var y := 3 * total / (2 * cells) + 1;
    DivMod(3 * total, 2 * cells);
    AtMost(y, rest0, left0);
    Distributed(y, 2 * cells, 1);
    FewLeftOf(cells, total, left0, y);
    if total <= cells {
      if y == 1 {
        DivModUnique(3 * cells, 1, cells, 2 * cells);
      } else {
        MulMonotone(2, y, left0);
      }
    }
  }

  lemma FewLeftOf(cells: nat, total: nat, left0: nat, y: nat)
    requires y * left0 <= total && 3 * total < y * (2 * cells)
    ensures 3 * left0 < 2 * cells
  {
    assert y * (3 * left0) == 3 * (y * left0);
    if 2 * cells <= 3 * left0 {
      MulMonotone(2 * cells, 3 * left0, y);
    }
  }

  lemma ThreeHalves(c: nat, left0: nat, left: nat, rest0: nat)
    requires c * (left0 * 2) > rest0 * 3 && 2 * left0 <= 3 * left
    ensures c * left >= rest0
  {
    MulMonotone(2 * left0, 3 * left, c);
    assert c * (3 * left) == 3 * (c * left);
  }

  lemma Distributed(a: nat, b: nat, c: nat)
    ensures a * (b + c) == a * b + a * c
  {
  }

  /** A count of at least one share walks over at least one cell. */
  lemma ShareWalks(c: nat, left: nat, rest: nat, v: nat)
    requires c * left >= rest && 1 <= rest < Pow2(32) && v >= 34
    ensures c * StepOn(left, rest, v) >= Pow2(v)
  {
    hide Pow2, Shl;
    Pow2Strict(32, v - 1);
    ShlIsTimes(left, v);
    var p, e := Pow2(v), Pow2(v - 1) - rest;
    var step := StepOn(left, rest, v);
    StepIsLarge(left, rest, v);
    MulMonotone(left * p + e, step * rest, c);
    Distributed(c, left * p, e);
    Grouped(c, left, p);
    Grouped(c, step, rest);
    MulMonotone(rest, c * left, p);
    Cancel(c * step, p, rest);
  }

  lemma StepIsLarge(left: nat, rest: nat, v: nat)
    requires v >= 34 && 1 <= rest < Pow2(v - 1)
    ensures left * Pow2(v) + (Pow2(v - 1) - rest) <= StepOn(left, rest, v) * rest
  {
    ShlIsTimes(left, v);
    DivMod(Shl(left, v) + (Pow2(v - 1) - 1), rest);
  }

  lemma Grouped(a: nat, b: nat, c: nat)
    ensures a * (b * c) == (a * b) * c
  {
  }

  lemma Cancel(a: nat, b: nat, m: nat)
    requires m > 0 && a * m >= b * m
    ensures a >= b
  {
    if a < b {
      MulMonotone(a + 1, b, m);
    }
  }

  /** A symbol that is still open after the two passes has at least one share of what is left. */
  lemma OpenHasShare(norm: seq<int>, count: seq<nat>, total: nat, tableLog: nat, s: nat)
    requires Proper(count, total, tableLog) && norm == Classes(count, total, Pow2(tableLog))
    requires s < |count| && norm[s] == NOT_YET_ASSIGNED
    requires Shaped(norm, count, Shr(total, tableLog), |count|) && Given(norm, |norm|) < Pow2(tableLog)
    ensures count[s] * (Pow2(tableLog) - Given(norm, |norm|)) >= Open(norm, count, |norm|)
  {
    hide Pow2, Shr, Sum, Given, Open, MinTableLog, Shaped;
    var cells := Pow2(tableLog);
    var first := FirstClasses(count, total, cells);
    var given0, rest0 := Given(first, |first|), Open(first, count, |first|);
    MinTableLogFits(total, |count|, tableLog);
    FirstShaped(count, total, tableLog);
    GivenBound(first, count, Shr(total, tableLog), |count|);
    GivenBound(norm, count, Shr(total, tableLog), |count|);
    if TakesSecond(first, count, total, cells) {
      SecondGives(norm, first, count, |count|);
      NothingOpen(norm, count, Shr(total, tableLog), |count|);
      OpenAfterSecond(cells, total, |count|, given0, rest0, Given(norm, |norm|), Open(norm, count, |norm|), count[s]);
    } else {
      OpenAfterFirst(cells, total, cells - given0, rest0, count[s]);
    }
  }

  lemma OpenAfterFirst(cells: nat, total: nat, left: nat, rest: nat, c: nat)
    requires cells > 0 && left > 0 && 2 * c * cells > 3 * total && rest / left <= 3 * total / (2 * cells)
    ensures c * left >= rest
  {
    AtMost(c, 3 * total, 2 * cells);
    assert c * (2 * cells) == 2 * c * cells;
    AtMost(c, rest, left);
  }

  lemma OpenAfterSecond(cells: nat, total: nat, symbols: nat, given0: nat, rest0: nat, given: nat, rest: nat, c: nat)
    requires given0 <= given < symbols && given0 < cells && rest <= rest0 && given0 + rest0 <= total
    requires 2 * symbols <= cells || total <= cells
    requires rest0 / (cells - given0) > 3 * total / (2 * cells) && 2 * c * (cells - given0) > 3 * rest0
    ensures given < cells && c * (cells - given) >= rest
  {
    AtMost(c, rest0 * 3, (cells - given0) * 2);
    assert c * ((cells - given0) * 2) == 2 * c * (cells - given0);
    ShareAfterSecond(cells, total, symbols, given0, rest0, given, rest, c);
  }

  lemma FirstShaped(count: seq<nat>, total: nat, tableLog: nat)
    ensures Shaped(FirstClasses(count, total, Pow2(tableLog)), count, Shr(total, tableLog), |count|)
  {
    hide Pow2, Shr;
    Thresholds(total, tableLog);
    forall s: nat | s < |count|
      ensures count[s] <= Shr(total, tableLog) <==> count[s] * Pow2(tableLog) <= total
    {
      AtMost(count[s], total, Pow2(tableLog));
    }
  }

  /** So the scaling of the open symbols never leaves one without a cell. */
  lemma OpenIsServed(norm: seq<int>, count: seq<nat>, total: nat, tableLog: nat, s: nat)
    requires Proper(count, total, tableLog) && norm == Classes(count, total, Pow2(tableLog))
    requires s < |count| && norm[s] == NOT_YET_ASSIGNED
    requires Shaped(norm, count, Shr(total, tableLog), |count|) && Given(norm, |norm|) < Pow2(tableLog)
    requires 1 <= Open(norm, count, |norm|) < Pow2(32)
    ensures var step := StepOn(Pow2(tableLog) - Given(norm, |norm|), Open(norm, count, |norm|), 62 - tableLog);
            Weight(norm, count, s, step, 62 - tableLog) >= 1
  {
    hide Pow2, Shr, Sum, Given, Open, MinTableLog, Classes, Weight, StepOn, Shaped;
    var left, rest, v := Pow2(tableLog) - Given(norm, |norm|), Open(norm, count, |norm|), 62 - tableLog;
    OpenHasShare(norm, count, total, tableLog, s);
    ShareWalks(count[s], left, rest, v);
    WeightIsFair(norm, count, s, StepOn(left, rest, v), v);
  }

  /** What the second method makes of the classes: the cells that are left go to the first of the most frequent
      symbols if every symbol has one, round to those with a cell if no symbol is open, and otherwise to the
      open ones, each of which gets the cells its count walks over. */
  ghost predicate FallsBack(r: seq<int>, count: seq<nat>, total: nat, tableLog: nat)
    requires tableLog <= 20
  {
    var norm := Classes(count, total, Pow2(tableLog));
    var given, rest := Given(norm, |norm|), Open(norm, count, |norm|);
    && given < Pow2(tableLog)
    && if given == |count| then ToMost(r, norm, count, Pow2(tableLog) - given)
       else if rest == 0 then HandedRound(r, norm, Pow2(tableLog) - given)
       else
         var step := StepOn(Pow2(tableLog) - given, rest, 62 - tableLog);
         Weighed(r, norm, count, |count|, step, 62 - tableLog)
  }

  // ----- the two methods

  const DIVISION_BY_ZERO := "division by zero"

  /** FSE_normalizeM2. It divides by the number of cells left, which is zero exactly when no count exceeds
      one cell's share; otherwise it succeeds. Its own test for a symbol left without a cell never fires. */
  method NormalizeM2(count: seq<nat>, total: nat, tableLog: nat) returns (r: Result<seq<int>>)
    requires Proper(count, total, tableLog)
    ensures r.Ok? <==> HasLarge(count, Shr(total, tableLog))
    ensures r.Err? ==> r.error == DIVISION_BY_ZERO
    ensures r.Ok? ==> IsNormalized(r.value, count, Shr(total, tableLog), tableLog)
                      && FallsBack(r.value, count, total, tableLog)
  {
    hide Shr, Pow2, Sum, Given, Open, MinTableLog, Start, IsNormalized, Weighed, HandedRound, ToMost, Weight, StepOn;
    ghost var cells := Pow2(tableLog);
    var lowThreshold, lowOne := Shr(total, tableLog), Shr(total * 3, tableLog + 1);
    Thresholds(total, tableLog);
    var norm, distributed, rest := FirstPass(count, total, lowThreshold, lowOne);
    FirstClassed(norm, count, total, cells);
    if !HasLarge(count, lowThreshold) {
      NoCellsLeft(norm, count, total, tableLog);
    } else {
      CellsLeft(norm, count, total, tableLog);
    }
    var toDistribute := Pow2(tableLog) - distributed;
    if toDistribute == 0 {
      return Err(DIVISION_BY_ZERO);
    }
    GivenBound(norm, count, lowThreshold, |count|);
    if rest / toDistribute > lowOne {
      NotNegative(rest * 3, toDistribute * 2);
      lowOne := (rest * 3) / (toDistribute * 2);
      ghost var first, rest0 := norm, rest;
      norm, distributed, rest := SecondPass(norm, count, distributed, rest, lowOne, lowThreshold);
      SecondClassed(norm, first, count, rest0, toDistribute);
      CellsLeft(norm, count, total, tableLog);
      GivenBound(norm, count, lowThreshold, |count|);
      toDistribute := Pow2(tableLog) - distributed;
    }
    assert norm == Classes(count, total, cells);
    if distributed == |count| {
      norm := AllToMax(norm, count, toDistribute, lowThreshold, tableLog);
      return Ok(norm);
    }
    if rest == 0 {
      norm := RoundRobin(norm, count, toDistribute, lowThreshold, tableLog);
      return Ok(norm);
    }
    r := Scale(norm, count, toDistribute, rest, tableLog, lowThreshold);
    forall s: nat | s < |count| && norm[s] == NOT_YET_ASSIGNED
      ensures Weight(norm, count, s, StepOn(toDistribute, rest, 62 - tableLog), 62 - tableLog) >= 1
    {
      OpenIsServed(norm, count, total, tableLog, s);
    }
  }

  /** The first of the most frequent symbols has got the cells that were left. */
  ghost predicate ToMost(norm: seq<int>, norm0: seq<int>, count: seq<nat>, cells: nat)
    requires |norm0| == |count|
  {
    exists m ::
      && 0 <= m < |count| && norm == norm0[m := norm0[m] + cells]
      && (forall s :: 0 <= s < |count| ==> count[s] <= count[m])
      && (forall s :: 0 <= s < m ==> count[s] < count[m])
  }

  /** Every symbol has one cell: the most frequent one gets the others. */
  method AllToMax(norm0: seq<int>, count: seq<nat>, toDistribute: nat, ghost low: nat,
                  ghost tableLog: nat) returns (norm: seq<int>)
    requires |norm0| == |count| > 0 && Shaped(norm0, count, low, |count|) && HasLarge(count, low)
    requires Given(norm0, |norm0|) == |count| && |count| + toDistribute == Pow2(tableLog)
    ensures IsNormalized(norm, count, low, tableLog) && ToMost(norm, norm0, count, toDistribute)
  {
    var maxV := FindMax(count);
    NothingOpen(norm0, count, low, |count|);
    GivenIsStart(norm0, |norm0|);
    StartUpdate(norm0, maxV, norm0[maxV] + toDistribute, |norm0|);
    norm := norm0[maxV := norm0[maxV] + toDistribute];
  }

  /** Nothing is open: the cells left are handed round. */
  method RoundRobin(norm0: seq<int>, count: seq<nat>, toDistribute: nat, ghost low: nat,
                    ghost tableLog: nat) returns (norm: seq<int>)
    requires |norm0| == |count| > 0 && Shaped(norm0, count, low, |count|) && HasLarge(count, low)
    requires Open(norm0, count, |norm0|) == 0 && Given(norm0, |norm0|) + toDistribute == Pow2(tableLog)
    ensures IsNormalized(norm, count, low, tableLog) && HandedRound(norm, norm0, toDistribute)
  {
    NothingOpen(norm0, count, low, |count|);
    GivenIsStart(norm0, |norm0|);
    ghost var s: nat :| s < |count| && count[s] > low;
    norm := HandRound(norm0, toDistribute, s);
  }

  /** A distribution, or the answer that one symbol is all there is. */
  datatype Outcome = SingleSymbol | Normal(norm: seq<int>, tableLog: nat)

  const RTB_TABLE: seq<nat> := [0, 473195, 504333, 520860, 550000, 700000, 750000, 830000]

  /** The probability of one symbol above the threshold: a fixed-point quotient, rounded up past a bar. */
  function Proba(count: nat, step: nat, scale: nat, vStep: nat): nat {
    var proba := Shr(count * step, scale);
    if proba < 8 && count * step - Shl(proba, scale) > vStep * RTB_TABLE[proba] then proba + 1 else proba
  }

  /** What the first method makes of one count. */
  function RoundedCount(count: nat, total: nat, tableLog: nat): int
    requires total > 0 && tableLog <= MAX_TABLELOG
  {
    if count == 0 then 0
    else if count <= Shr(total, tableLog) then -1
    else Proba(count, Shl(1, 62) / total, 62 - tableLog, Shl(1, 42 - tableLog))
  }

  function RoundedCounts(count: seq<nat>, total: nat, tableLog: nat): (r: seq<int>)
    requires total > 0 && tableLog <= MAX_TABLELOG
    ensures |r| == |count|
  {
    seq(|count|, s requires 0 <= s < |count| => RoundedCount(count[s], total, tableLog))
  }

  /** The cells for a share with this many fractional bits. */
  predicate RoundedAtBars(cells: int, share: nat, scale: nat)
    requires scale >= 20
  {
    AtBars(cells, share / Pow2(scale), share % Pow2(scale), Pow2(scale - 20))
  }

  /** The cells for a quotient and a fraction; the bars are in parts of 2^20 of a cell. */
  predicate AtBars(cells: int, quotient: int, fraction: int, part: nat) {
    && cells in {quotient, quotient + 1}
    && (quotient == 0 ==> (cells == 1 <==> fraction > 0))
    && (quotient == 1 ==> (cells == 2 <==> fraction > 473195 * part))
    && (quotient == 2 ==> (cells == 3 <==> fraction > 504333 * part))
    && (quotient == 3 ==> (cells == 4 <==> fraction > 520860 * part))
    && (quotient == 4 ==> (cells == 5 <==> fraction > 550000 * part))
    && (quotient == 5 ==> (cells == 6 <==> fraction > 700000 * part))
    && (quotient == 6 ==> (cells == 7 <==> fraction > 750000 * part))
    && (quotient == 7 ==> (cells == 8 <==> fraction > 830000 * part))
    && (quotient >= 8 ==> cells == quotient)
  }

  /** A count times the step 2^62 / total: its share of a single cell, with 62 fractional bits. */
  function FixedPoint(count: nat, total: nat): nat
    requires total > 0
  {
    count * (0x4000_0000_0000_0000 / total)
  }

  lemma TwoTo62()
    ensures Pow2(62) == 0x4000_0000_0000_0000
  {
    Pow2Add(16, 16);
    Pow2Add(32, 16);
    Pow2Add(48, 14);
    assert Pow2(16) == 65536 && Pow2(14) == 16384;
  }

  /** Rounding at its bars: a count above the threshold gets its fixed-point quotient, and one cell more exactly
      when the quotient is below 8 and the fraction exceeds the bar of the quotient. */
  lemma RoundingBars(count: nat, total: nat, tableLog: nat)
    requires total > 0 && tableLog <= MAX_TABLELOG && count > Shr(total, tableLog)
    ensures RoundedAtBars(RoundedCount(count, total, tableLog), FixedPoint(count, total), 62 - tableLog)
  {
    hide Shr, Shl, Pow2, Proba, RoundedAtBars;
    var scale := 62 - tableLog;
    ShlIsTimes(1, 62);
    ShlIsTimes(1, 42 - tableLog);
    TwoTo62();
    var step: nat := 0x4000_0000_0000_0000 / total;
    QuotientAndFraction(count * step, scale);
    ProbaAtBars(count, step, scale);
  }

  lemma ProbaAtBars(count: nat, step: nat, scale: nat)
    requires scale >= 20
    ensures RoundedAtBars(Proba(count, step, scale, Pow2(scale - 20)), count * step, scale)
  {
    var x: nat := count * step;
    QuotientAndFraction(x, scale);
    hide Shr, Shl, Pow2, AtBars;
    TableOfBars(Proba(count, step, scale, Pow2(scale - 20)), x / Pow2(scale), x % Pow2(scale), Pow2(scale - 20));
  }

  lemma TableOfBars(cells: nat, quotient: nat, fraction: nat, part: nat)
    requires cells == if quotient < 8 && fraction > part * RTB_TABLE[quotient] then quotient + 1 else quotient
    ensures AtBars(cells, quotient, fraction, part)
  {
  }

  lemma QuotientAndFraction(x: nat, scale: nat)
    ensures Shr(x, scale) == x / Pow2(scale) && x - Shl(Shr(x, scale), scale) == x % Pow2(scale)
  {
    ShrIsDiv(x, scale);
    ShlIsTimes(Shr(x, scale), scale);
    DivMod(x, Pow2(scale));
  }

  /** The first of the largest among the first n, or 0 when none is positive. */
  function Largest(norm: seq<int>, n: nat): (largest: nat)
    requires n <= |norm|
    ensures largest < n || largest == 0
  {
    if n == 0 then 0
    else
      var before := Largest(norm, n - 1);
      if norm[n - 1] > 0 && (norm[before] <= 0 || norm[n - 1] > norm[before]) then n - 1 else before
  }

  /** The cells that the rounded counts leave over, or take too many. */
  function Slack(norm: seq<int>, tableLog: nat): int {
    Pow2(tableLog) - Start(norm, |norm|)
  }

  lemma RoundedUp(count: nat, step: nat, scale: nat, vStep: nat)
    requires count > 0 && step > 0
    ensures Shr(count * step, scale) == 0 ==> count * step - Shl(0, scale) > vStep * RTB_TABLE[0]
  {
    ShlIsTimes(0, scale);
    MulMonotone(1, count, step);
  }

  lemma StepPositive(total: nat)
    requires 1 <= total < Pow2(32)
    ensures Shl(1, 62) / total >= 1
  {
    hide Pow2, Shl;
    ShlIsTimes(1, 62);
    Pow2Monotone(32, 62);
    DivMod(Shl(1, 62), total);
    if Shl(1, 62) / total < 1 {
      MulMonotone(Shl(1, 62) / total, 0, total);
    }
  }

  /** The first method's state before symbol n. */
  ghost predicate Rounded(norm: seq<int>, count: seq<nat>, total: nat, n: nat, largest: nat, largestP: nat, still: int,
                          tableLog: nat)
    requires total > 0 && tableLog <= MAX_TABLELOG
  {
    && |norm| == |count| && n <= |norm| && still == Pow2(tableLog) - Start(norm, n)
    && (forall s :: 0 <= s < n ==> norm[s] == RoundedCount(count[s], total, tableLog))
    && (forall s :: 0 <= s < n ==> Fitting(norm[s], count[s], Shr(total, tableLog)))
    && (forall s :: 0 <= s < n && count[s] > Shr(total, tableLog) ==> largestP > 0)
    && largest == Largest(norm, n) && (if largestP > 0 then largest < n && norm[largest] == largestP
                                       else largest == 0 && forall s :: 0 <= s < n ==> norm[s] <= 0)
  }

  lemma LargestFrame(norm: seq<int>, s: nat, x: int, n: nat)
    requires n <= s < |norm|
    ensures Largest(norm[s := x], n) == Largest(norm, n)
  {
    if n > 0 {
      LargestFrame(norm, s, x, n - 1);
    }
  }

  lemma ProbaPositive(count: nat, total: nat, tableLog: nat)
    requires count > 0 && 1 <= total < Pow2(32) && tableLog <= MAX_TABLELOG
    ensures Proba(count, Shl(1, 62) / total, 62 - tableLog, Shl(1, 42 - tableLog)) >= 1
  {
    hide Pow2, Shl, Shr;
    StepPositive(total);
    RoundedUp(count, Shl(1, 62) / total, 62 - tableLog, Shl(1, 42 - tableLog));
  }

  /** One more symbol. */
  lemma RoundedNext(norm: seq<int>, count: seq<nat>, total: nat, s: nat, largest: nat, largestP: nat, still: int,
                    tableLog: nat, x: int)
    requires 1 <= total < Pow2(32) && tableLog <= MAX_TABLELOG && s < |count|
    requires Rounded(norm, count, total, s, largest, largestP, still, tableLog)
    requires x == RoundedCount(count[s], total, tableLog)
    ensures var bigger := x > largestP;
            Rounded(norm[s := x], count, total, s + 1, if bigger then s else largest, if bigger then x else largestP,
                    still - Share(x), tableLog)
    ensures x >= -1
  {
    hide Pow2, Shl, Shr, Start, Proba;
    StartPut(norm, s, x);
    LargestFrame(norm, s, x, s);
    if count[s] > 0 {
      ProbaPositive(count[s], total, tableLog);
    }
  }

  /** The rounding loop; it stops at a symbol that is the whole source. */
  method Round(count: seq<nat>, total: nat, tableLog: nat) returns (single: bool, norm: seq<int>, largest: nat,
               largestP: nat, still: int)
    requires Proper(count, total, tableLog)
    ensures single <==> exists s :: 0 <= s < |count| && count[s] == total
    ensures !single ==> largest < |count|
                        && Rounded(norm, count, total, |count|, largest, largestP, still, tableLog)
  {
    hide Shr, Shl, Pow2, Sum, MinTableLog, Start, Rounded, Proba;
    var lowThreshold := Shr(total, tableLog);
    var scale := 62 - tableLog;
    var step, vStep := Shl(1, 62) / total, Shl(1, scale - 20);
    norm, still, largest, largestP, single := seq(|count|, _ => 0), Pow2(tableLog), 0, 0, false;
    NothingRounded(norm, count, total, tableLog);
    for s := 0 to |count|
      invariant Rounded(norm, count, total, s, largest, largestP, still, tableLog)
      invariant largest < |count| && |norm| == |count| && forall i :: 0 <= i < s ==> count[i] != total
    {
      if count[s] == total {
        single := true;
        return;
      }
      var x: int := 0;
      ghost var before, beforeP := largest, largestP;
      RoundedNext(norm, count, total, s, largest, largestP, still, tableLog, RoundedCount(count[s], total, tableLog));
      if count[s] != 0 {
        if count[s] <= lowThreshold {
          x := -1;
          still := still - 1;
        } else {
          var proba := Proba(count[s], step, scale, vStep);
          if proba > largestP {
            largestP, largest := proba, s;
          }
          x := proba;
          still := still - proba;
        }
      }
      norm := norm[s := x];
    }
  }

  lemma NothingRounded(norm: seq<int>, count: seq<nat>, total: nat, tableLog: nat)
    requires |norm| == |count| && total > 0 && tableLog <= MAX_TABLELOG
    ensures Rounded(norm, count, total, 0, 0, 0, Pow2(tableLog), tableLog)
  {
  }

  lemma RoundedLength(norm: seq<int>, count: seq<nat>, total: nat, largest: nat, largestP: nat, still: int, tableLog: nat)
    requires total > 0 && tableLog <= MAX_TABLELOG
    requires Rounded(norm, count, total, |count|, largest, largestP, still, tableLog)
    ensures |norm| == |count|
  {
  }

  lemma AllRounded(norm: seq<int>, count: seq<nat>, total: nat, largest: nat, largestP: nat, still: int, tableLog: nat)
    requires total > 0 && tableLog <= MAX_TABLELOG && |norm| == |count|
    requires Rounded(norm, count, total, |norm|, largest, largestP, still, tableLog)
    ensures norm == RoundedCounts(count, total, tableLog) && largest == Largest(norm, |norm|)
    ensures still == Slack(norm, tableLog)
  {
    hide RoundedCount, Largest;
  }

  /** With a large count the largest symbol can take or give the difference; with none the difference is
      zero and the second method is called for nothing. */
  lemma Corrected(norm: seq<int>, count: seq<nat>, total: nat, largest: nat, largestP: nat, still: int, tableLog: nat)
    requires total > 0 && tableLog <= MAX_TABLELOG
    requires |norm| > 0 && largest < |norm| && Rounded(norm, count, total, |norm|, largest, largestP, still, tableLog)
    requires -still < norm[largest] / 2 && HasLarge(count, Shr(total, tableLog))
    ensures IsNormalized(norm[largest := norm[largest] + still], count, Shr(total, tableLog), tableLog)
  {
    hide Shr, Pow2, RoundedCount, Largest;
    StartUpdate(norm, largest, norm[largest] + still, |norm|);
  }

  lemma {:induction false} RoundedSmall(norm: seq<int>, count: seq<nat>, low: nat, n: nat)
    requires |norm| == |count| && n <= |norm| && low <= 1
    requires forall s :: 0 <= s < n ==> -1 <= norm[s] <= 0 && (norm[s] == 0 <==> count[s] == 0) && count[s] <= low
    ensures Start(norm, n) == Sum(count, n)
  {
    if n > 0 {
      RoundedSmall(norm, count, low, n - 1);
    }
  }

  lemma NothingToCorrect(norm: seq<int>, count: seq<nat>, total: nat, largest: nat, largestP: nat, still: int,
                      tableLog: nat)
    requires Proper(count, total, tableLog) && !HasLarge(count, Shr(total, tableLog))
    requires Rounded(norm, count, total, |count|, largest, largestP, still, tableLog) && largest < |norm|
    ensures -still >= norm[largest] / 2
  {
    hide Shr, Pow2, Sum, MinTableLog, Start, RoundedCount, Largest;
    AllOnes(count, total, tableLog);
    RoundedSmall(norm, count, Shr(total, tableLog), |norm|);
  }

  /** No count exceeds one cell's share only if there is one of each of as many symbols as cells. */
  lemma AllOnes(count: seq<nat>, total: nat, tableLog: nat)
    requires Proper(count, total, tableLog) && !HasLarge(count, Shr(total, tableLog))
    ensures total == Pow2(tableLog) && Shr(total, tableLog) == 1 && forall s :: 0 <= s < |count| ==> count[s] <= 1
  {
    hide Shr, Pow2, Sum, MinTableLog;
    var low := Shr(total, tableLog);
    MinTableLogFits(total, |count|, tableLog);
    SumBound(count, |count|, low);
    LowThreshold(total, tableLog);
    if 2 * |count| <= Pow2(tableLog) {
      NotHalf(|count|, low, Pow2(tableLog), total);
    }
    SmallTotal(total, tableLog);
  }

  /** FSE_normalizeCount. Past its sanity tests, and unless one symbol is the whole source, it divides by
      zero exactly when no count exceeds its share of one cell, which is when every symbol occurs once and
      there are as many as cells; otherwise it succeeds and accounts for every cell of the table. While the
      rounded counts are off by little, the largest takes up the difference and the others keep theirs. */
  method NormalizeCount(tableLog0: nat, count: seq<nat>, total: nat) returns (r: Result<Outcome>)
    requires |count| >= 2 && 2 <= total < Pow2(32) && total == Sum(count, |count|)
    ensures 1 <= tableLog0 < 5 ==> r == Err("GENERIC")
    ensures tableLog0 > 14 ==> r == Err("tableLog_tooLarge")
    ensures var tableLog := if tableLog0 == 0 then 14 else tableLog0;
            5 <= tableLog <= 14 ==>
              if Pow2(tableLog) < 2 * |count| && Pow2(tableLog) < total then r == Err("GENERIC")
              else if exists s :: 0 <= s < |count| && count[s] == total then r == Ok(SingleSymbol)
              else if !HasLarge(count, Shr(total, tableLog)) then r == Err(DIVISION_BY_ZERO)
              else
                && r.Ok? && r.value.Normal? && r.value.tableLog == tableLog
                && IsNormalized(r.value.norm, count, Shr(total, tableLog), tableLog)
                && var rounded := RoundedCounts(count, total, tableLog);
                   var big := Largest(rounded, |rounded|);
                   if -Slack(rounded, tableLog) < rounded[big] / 2
                   then r.value.norm == rounded[big := rounded[big] + Slack(rounded, tableLog)]
                   else FallsBack(r.value.norm, count, total, tableLog)
  {
    hide Shr, Pow2, Sum, MinTableLog, Start, HasLarge, IsNormalized, Rounded, RoundedCounts, Slack, Largest, FallsBack;
    var tableLog := if tableLog0 == 0 then DEFAULT_TABLELOG else tableLog0;
    if tableLog < MIN_TABLELOG {
      return Err("GENERIC");
    }
    if tableLog > MAX_TABLELOG {
      return Err("tableLog_tooLarge");
    }
    MinTableLogFits(total, |count|, tableLog);
    if tableLog < MinTableLog(total, |count| - 1) {
      return Err("GENERIC");
    }
    var single, norm, largest, largestP, still := Round(count, total, tableLog);
    if single {
      return Ok(SingleSymbol);
    }
    RoundedLength(norm, count, total, largest, largestP, still, tableLog);
    AllRounded(norm, count, total, largest, largestP, still, tableLog);
    if -still >= norm[largest] / 2 {
      var m2 := NormalizeM2(count, total, tableLog);
      if m2.Err? {
        return Err(m2.error);
      }
      return Ok(Normal(m2.value, tableLog));
    }
    if HasLarge(count, Shr(total, tableLog)) {
      Corrected(norm, count, total, largest, largestP, still, tableLog);
    } else {
      NothingToCorrect(norm, count, total, largest, largestP, still, tableLog);
    }
    r := Ok(Normal(norm[largest := norm[largest] + still], tableLog));
  }

  /** One and a half of 32 cells are rounded up to two. */
  method HalfRoundsUp() returns (r: Result<Outcome>)
    ensures r == Ok(Normal([2, 30], 5))
  {
    hide Shr, Shl, Pow2, Sum, Start, HasLarge, IsNormalized, RoundedCounts, Slack, Largest, Log2;
    var count: seq<nat> := [3, 61];
    HalfRounded(count);
    Pow2Strict(6, 32);
    HalfTotal(count);
    ghost var rounded := RoundedCounts(count, 64, 5);
    assert rounded == [2, 30] && Largest(rounded, |rounded|) == 1 && Slack(rounded, 5) == 0;
    assert rounded[1 := 30] == [2, 30];
    r := NormalizeCount(5, count, 64);
  }

  lemma HalfRounded(count: seq<nat>)
    requires count == [3, 61]
    ensures Sum(count, |count|) == 64 && Pow2(5) == 32
    ensures RoundedCounts(count, 64, 5) == [2, 30]
    ensures Largest([2, 30], 2) == 1 && Slack([2, 30], 5) == 0
  {
    hide Shr, Shl, Pow2, RoundedCount, Sum, Slack, Largest, Log2;
    HalfSum(count);
    HalfCells();
    HalfSlack([2, 30]);
  }

  lemma HalfSum(count: seq<nat>)
    requires count == [3, 61]
    ensures Sum(count, |count|) == 64
  {
    assert Sum(count, 1) == Sum(count, 0) + 3 && Sum(count, 2) == Sum(count, 1) + 61;
  }

  lemma HalfTotal(count: seq<nat>)
    requires count == [3, 61]
    ensures 64 < Pow2(32) && HasLarge(count, Shr(64, 5)) && !exists s :: 0 <= s < |count| && count[s] == 64
  {
    ShrIsDiv(64, 5);
    assert count[1] > 64 / 32 && Pow2(5) == 32;
    Pow2Exceeds(6);
    Pow2Strict(7, 32);
    assert Pow2(7) == 128;
  }

  lemma HalfSlack(norm: seq<int>)
    requires norm == [2, 30]
    ensures Largest(norm, 2) == 1 && Slack(norm, 5) == 0 && Pow2(5) == 32
  {
    assert Largest(norm, 1) == 0 && Largest(norm, 0) == 0;
    assert Start(norm, 1) == Start(norm, 0) + 2 && Start(norm, 2) == Start(norm, 1) + 30;
    assert Pow2(5) == 32;
  }

  lemma HalfCells()
    ensures RoundedCount(3, 64, 5) == 2 && RoundedCount(61, 64, 5) == 30
  {
    ShrIsDiv(64, 5);
    assert Pow2(5) == 32;
    RoundingBars(3, 64, 5);
    RoundingBars(61, 64, 5);
    hide Pow2, RoundedCount, Shr;
    TwoTo62();
    HalfOfPowers(Pow2(56), Pow2(57), Pow2(62), Pow2(37));
  }

  lemma HalfOfPowers(p: nat, twice: nat, whole: nat, part: nat)
    requires p == Pow2(56) && twice == Pow2(57) && whole == Pow2(62) && part == Pow2(37)
    ensures 3 * (whole / 64) / twice == 1 && 3 * (whole / 64) % twice > 473195 * part
    ensures 61 * (whole / 64) / twice == 30
  {
    Pow2Add(56, 6);
    Pow2Add(37, 19);
    assert Pow2(6) == 64 && Pow2(1) == 2;
    Pow2Add(56, 1);
    BigPower();
    hide Pow2;
    DivModUnique(whole, p, 0, 64);
    DivModUnique(3 * p, 1, p, twice);
    DivModUnique(61 * p, 30, p, twice);
  }

  lemma BigPower()
    ensures Pow2(19) == 524288
  {
    Pow2Add(10, 9);
    assert Pow2(10) == 1024 && Pow2(9) == 512;
  }

  /** The division by zero is reached: as many symbols as cells, each occurring once. */
  lemma UniformCountsFail(tableLog: nat)
    requires MIN_TABLELOG <= tableLog <= 8
    ensures var count: seq<nat> := seq(Pow2(tableLog), _ => 1);
            && Sum(count, |count|) == Pow2(tableLog) && |count| >= 2
            && tableLog >= MinTableLog(Pow2(tableLog), |count| - 1)
            && (forall s :: 0 <= s < |count| ==> count[s] != Pow2(tableLog))
            && !HasLarge(count, Shr(Pow2(tableLog), tableLog))
  {
    hide Pow2, Shr, Sum, Log2;
    var size := Pow2(tableLog);
    var count: seq<nat> := seq(size, _ => 1);
    Pow2Exceeds(tableLog);
    SumOfOnes(count, size);
    SmallTotal(size, tableLog);
    LogBelowPower(size - 1, tableLog);
  }

  lemma {:induction false} SumOfOnes(count: seq<nat>, n: nat)
    requires n <= |count| && forall s :: 0 <= s < |count| ==> count[s] == 1
    ensures Sum(count, n) == n
  {
    if n > 0 {
      SumOfOnes(count, n - 1);
    }
  }

  lemma LogBelowPower(x: nat, k: nat)
    requires 1 <= x < Pow2(k)
    ensures Log2(x) < k
  {
    if Log2(x) >= k {
      Pow2Monotone(k, Log2(x));
    }
  }
}
