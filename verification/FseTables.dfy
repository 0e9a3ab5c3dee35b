/** The FSE compression and decompression tables, built independently of each other from the same
    normalized counts, and the proof that an encoding step and a decoding step undo each other. */
module FseTables {
  import opened Powers
  import opened Walk
  import opened Spread
  import opened Wrappers

  /** `FSE_symbolCompressionTransform` */
  datatype Transform = Transform(deltaFindState: int, deltaNbBits: int)

  /** `FSE_CTable`: `stateTable` gives the next state, sorted by symbol. */
  datatype CTable = CTable(tableLog: nat, maxSymbolValue: nat, stateTable: seq<nat>, symbolTT: seq<Transform>)

  /** `FSE_decode_t` */
  datatype Cell = Cell(newState: nat, symbol: nat, nbBits: nat)

  datatype DTable = DTable(tableLog: nat, fastMode: bool, cells: seq<Cell>)

  // ----- what the tables hold, for a table t that gives each symbol its share

  ghost predicate Spreads(norm: seq<int>, tableLog: nat, t: seq<nat>) {
    Normalized(norm, tableLog) && |t| == Pow2(tableLog) && Fair(norm, t)
  }

  /** Slot of cell u when the cells are sorted by symbol. */
  ghost function Slot(norm: seq<int>, t: seq<nat>, u: nat): nat
    requires u < |t| && t[u] < |norm|
  {
    Start(norm, t[u]) + Occurrences(t, t[u], u)
  }

  /** `nextState` of a cell: its symbol's count plus its rank among that symbol's cells. */
  ghost function NextState(norm: seq<int>, t: seq<nat>, u: nat): nat
    requires u < |t| && t[u] < |norm|
  {
    Share(norm[t[u]]) + Occurrences(t, t[u], u)
  }

  function MaxBitsOut(count: int, tableLog: nat): nat
    requires count >= 2
  {
    var n := tableLog - Log2(count - 1);
    if n < 0 then 0 else n
  }

  function DeltaNbBits(count: int, tableLog: nat): int {
    if count == 0 then (tableLog + 1) * 65536 - Pow2(tableLog)
    else if count <= 1 then tableLog * 65536 - Pow2(tableLog)
    else MaxBitsOut(count, tableLog) * 65536 - Shl(count, MaxBitsOut(count, tableLog))
  }

  ghost predicate IsCTable(ct: CTable, norm: seq<int>, t: seq<nat>)
    requires Fair(norm, t)
  {
    && ct.maxSymbolValue == |norm| - 1 && |ct.stateTable| == |t| && |ct.symbolTT| == |norm|
    && Sorted(norm, t, ct.stateTable, |t|)
    && Transforms(norm, ct.tableLog, ct.symbolTT, |norm|)
  }

  /** The first n cells have their states in their slots. */
  ghost predicate Sorted(norm: seq<int>, t: seq<nat>, states: seq<nat>, n: nat)
    requires Fair(norm, t) && n <= |t| == |states|
  {
    forall u: nat {:trigger Slot(norm, t, u)} :: u < n ==>
      Slot(norm, t, u) < |t| && states[Slot(norm, t, u)] == |t| + u
  }

  predicate IsTransform(symbolTT: Transform, count: int, start: nat, tableLog: nat) {
    && symbolTT.deltaNbBits == DeltaNbBits(count, tableLog)
    && (count != 0 ==> symbolTT.deltaFindState == start - Share(count))
  }

  ghost predicate Transforms(norm: seq<int>, tableLog: nat, symbolTT: seq<Transform>, n: nat)
    requires n <= |norm| && n <= |symbolTT|
  {
    forall s: nat {:trigger symbolTT[s]} :: s < n ==> IsTransform(symbolTT[s], norm[s], Start(norm, s), tableLog)
  }

  /** A decoding cell for a symbol whose encoder is left with `next` once its bits are out. */
  predicate IsCell(cell: Cell, next: nat, tableLog: nat) {
    && 1 <= next && Log2(next) + cell.nbBits == tableLog
    && cell.newState + Pow2(tableLog) == Shl(next, cell.nbBits)
  }

  ghost predicate IsDTable(dt: DTable, norm: seq<int>, t: seq<nat>)
    requires Fair(norm, t)
  {
    && |dt.cells| == |t| && dt.tableLog >= 1
    && (dt.fastMode <==> forall s: nat :: s < |norm| ==> norm[s] < Pow2(dt.tableLog - 1))
    && Filled(norm, dt.tableLog, t, dt.cells, |t|)
  }

  ghost predicate Filled(norm: seq<int>, tableLog: nat, t: seq<nat>, cells: seq<Cell>, n: nat)
    requires Fair(norm, t) && n <= |t| && n <= |cells|
  {
    && (forall u: nat :: u < n ==> cells[u].symbol == t[u])
    && forall u: nat {:trigger NextState(norm, t, u)} :: u < n ==> IsCell(cells[u], NextState(norm, t, u), tableLog)
  }

  // ----- the cells sorted by symbol

  lemma RankBelowShare(norm: seq<int>, t: seq<nat>, u: nat)
    requires Fair(norm, t) && u < |t|
    ensures Occurrences(t, t[u], u) < Share(norm[t[u]])
  {
    OccurrencesMonotone(t, t[u], u + 1, |t|);
  }

  lemma SlotInRange(norm: seq<int>, t: seq<nat>, u: nat)
    requires Fair(norm, t) && u < |t| && Start(norm, |norm|) == |t|
    ensures Start(norm, t[u]) <= Slot(norm, t, u) < Start(norm, t[u] + 1) <= |t|
  {
    RankBelowShare(norm, t, u);
    StartMonotone(norm, t[u] + 1, |norm|);
  }

  lemma SlotsDiffer(norm: seq<int>, t: seq<nat>, u: nat, v: nat)
    requires Fair(norm, t) && u < v < |t|
    ensures Slot(norm, t, u) != Slot(norm, t, v)
  {
    RankBelowShare(norm, t, u);
    RankBelowShare(norm, t, v);
    if t[u] < t[v] {
      StartMonotone(norm, t[u] + 1, t[v]);
    } else if t[v] < t[u] {
      StartMonotone(norm, t[v] + 1, t[u]);
    } else {
      OccurrencesMonotone(t, t[u], u + 1, v);
    }
  }

  /** The cell that holds the r-th s. */
  ghost function CellOf(t: seq<nat>, s: nat, r: nat, n: nat): (u: nat)
    requires n <= |t| && r < Occurrences(t, s, n)
    ensures u < n && t[u] == s && Occurrences(t, s, u) == r
  {
    if r < Occurrences(t, s, n - 1) then CellOf(t, s, r, n - 1) else n - 1
  }

  // ----- how many bits an encoding step sends

  ghost predicate EncoderState(tableLog: nat, x: nat) {
    Pow2(tableLog) <= x < 2 * Pow2(tableLog)
  }

  /** `nbBitsOut` of FSE_encodeSymbol */
  function BitsOut(x: nat, delta: int): nat {
    var n := (x + delta) / 65536;
    if n < 0 then 0 else n
  }

  function NbBitsOut(ct: CTable, x: nat, s: nat): nat
    requires s < |ct.symbolTT|
  {
    BitsOut(x, ct.symbolTT[s].deltaNbBits)
  }

  function StateSlot(ct: CTable, x: nat, s: nat): int
    requires s < |ct.symbolTT|
  {
    Shr(x, NbBitsOut(ct, x, s)) + ct.symbolTT[s].deltaFindState
  }

  lemma QuotientAtLeast(x: nat, c: nat, d: nat)
    requires d >= 1 && c * d <= x
    ensures c <= x / d
  {
    DivMod(x, d);
    if x / d < c {
      MulMonotone(x / d + 1, c, d);
    }
  }

  lemma QuotientBetween(x: nat, c: nat, d: nat)
    requires d >= 1 && c * d <= x < 2 * (c * d)
    ensures c <= x / d < 2 * c
  {
    QuotientAtLeast(x, c, d);
    assert (2 * c) * d == 2 * (c * d);
    DivBound(x, d, 2 * c);
  }

  /** minStatePlus lies in the upper part of the state range. */
  lemma MinStatePlus(c: nat, h: nat, low: nat)
    requires h < c <= 2 * h
    ensures h * low + low <= c * low <= 2 * (h * low)
  {
    MulMonotone(h + 1, c, low);
    MulMonotone(c, 2 * h, low);
    assert (h + 1) * low == h * low + low;
    assert (2 * h) * low == 2 * (h * low);
  }

  lemma SmallTable(tableLog: nat)
    requires tableLog <= MAX_TABLELOG
    ensures Pow2(tableLog) <= 16384
  {
    Pow2Monotone(tableLog, 14);
    assert Pow2(14) == 16384;
  }

  lemma MaxBits(c: nat, tableLog: nat)
    requires 2 <= c <= Pow2(tableLog)
    ensures var m := MaxBitsOut(c, tableLog);
            1 <= m <= tableLog && Pow2(tableLog) + Pow2(m) <= Shl(c, m) <= 2 * Pow2(tableLog)
  {
    var h := Log2(c - 1);
    LogBelow(c - 1, tableLog);
    var m := tableLog - h;
    Pow2Add(h, m);
    ShlIsTimes(c, m);
    MinStatePlus(c, Pow2(h), Pow2(m));
  }

  lemma LogBelow(n: nat, k: nat)
    requires 1 <= n < Pow2(k)
    ensures Log2(n) < k
  {
    if Log2(n) >= k {
      Pow2Monotone(k, Log2(n));
    }
  }

  /** The fixed-point comparison with minStatePlus picks one of two bit counts. */
  lemma BitsOutMany(x: nat, c: nat, tableLog: nat)
    requires 2 <= c <= Pow2(tableLog) && tableLog <= MAX_TABLELOG
    requires EncoderState(tableLog, x)
    ensures var m := MaxBitsOut(c, tableLog);
            BitsOut(x, DeltaNbBits(c, tableLog)) == if x >= Shl(c, m) then m else m - 1
  {
    MaxBits(c, tableLog);
    SmallTable(tableLog);
    var m := MaxBitsOut(c, tableLog);
    var minStatePlus := Shl(c, m);
    if x >= minStatePlus {
      DivModUnique(x + (m * 65536 - minStatePlus), m, x - minStatePlus, 65536);
    } else {
      DivModUnique(x + (m * 65536 - minStatePlus), m - 1, 65536 + x - minStatePlus, 65536);
    }
  }

  lemma ShrBetween(x: nat, c: nat, n: nat)
    requires Shl(c, n) <= x < 2 * Shl(c, n)
    ensures c <= Shr(x, n) < 2 * c
  {
    ShlIsTimes(c, n);
    ShrIsDiv(x, n);
    QuotientBetween(x, c, Pow2(n));
  }

  lemma BitsOutSingle(x: nat, tableLog: nat)
    requires tableLog <= MAX_TABLELOG && EncoderState(tableLog, x)
    ensures BitsOut(x, DeltaNbBits(1, tableLog)) == tableLog && Shr(x, tableLog) == 1
  {
    SmallTable(tableLog);
    var t := Pow2(tableLog);
    DivModUnique(x + (tableLog * 65536 - t), tableLog, x - t, 65536);
    ShrIsDiv(x, tableLog);
    DivModUnique(x, 1, x - t, t);
  }

  /** The bits sent leave the state between the count and twice the count. */
  lemma BitsOutInterval(x: nat, c: nat, tableLog: nat)
    requires 1 <= c <= Pow2(tableLog) && tableLog <= MAX_TABLELOG
    requires EncoderState(tableLog, x)
    ensures var n := BitsOut(x, DeltaNbBits(c, tableLog)); n <= tableLog && c <= Shr(x, n) < 2 * c
  {
    if c == 1 {
      BitsOutSingle(x, tableLog);
    } else {
      BitsOutMany(x, c, tableLog);
      MaxBits(c, tableLog);
      var m := MaxBitsOut(c, tableLog);
      ShrBetween(x, c, if x >= Shl(c, m) then m else m - 1);
    }
  }

  lemma DeltaOfLowSymbol(tableLog: nat)
    ensures DeltaNbBits(-1, tableLog) == DeltaNbBits(1, tableLog)
  {
  }

  lemma ShareFits(norm: seq<int>, tableLog: nat, s: nat)
    requires Normalized(norm, tableLog) && s < |norm|
    ensures Share(norm[s]) <= Pow2(tableLog)
    ensures DeltaNbBits(norm[s], tableLog) == DeltaNbBits(Share(norm[s]), tableLog)
  {
    StartMonotone(norm, s + 1, |norm|);
    DeltaOfLowSymbol(tableLog);
  }

  // ----- one encoding step

  /** What an encoding step does: the bits it sends leave a number between the symbol's count and
      twice that count, whose rank selects one of the symbol's cells. */
  lemma EncodeStep(ct: CTable, norm: seq<int>, t: seq<nat>, x: nat, s: nat) returns (u: nat)
    requires Spreads(norm, ct.tableLog, t) && IsCTable(ct, norm, t)
    requires EncoderState(ct.tableLog, x) && s < |norm| && norm[s] != 0
    ensures NbBitsOut(ct, x, s) <= ct.tableLog
    ensures 0 <= StateSlot(ct, x, s) < |ct.stateTable|
    ensures u < |t| && ct.stateTable[StateSlot(ct, x, s)] == |t| + u
    ensures t[u] == s && NextState(norm, t, u) == Shr(x, NbBitsOut(ct, x, s))
  {
    ShareFits(norm, ct.tableLog, s);
    BitsOutInterval(x, Share(norm[s]), ct.tableLog);
    u := CellOf(t, s, Shr(x, NbBitsOut(ct, x, s)) - Share(norm[s]), |t|);
    assert Slot(norm, t, u) == StateSlot(ct, x, s);
  }

  lemma ShiftedLog(x: nat, n: nat, k: nat)
    requires n <= k && EncoderState(k, x)
    ensures Shr(x, n) >= 1 && Log2(Shr(x, n)) == k - n
  {
    Pow2Add(k - n, n);
    ShlIsTimes(Pow2(k - n), n);
    ShrBetween(x, Pow2(k - n), n);
    Log2Unique(Shr(x, n), k - n);
  }

  /** Encoding a symbol and decoding it again restores the encoder state: the cell reached holds
      the symbol, asks for exactly the bits that were sent, and adds them back. */
  lemma DecodeUndoesEncode(ct: CTable, dt: DTable, norm: seq<int>, t: seq<nat>, x: nat, s: nat)
    requires Spreads(norm, ct.tableLog, t) && IsCTable(ct, norm, t)
    requires dt.tableLog == ct.tableLog && IsDTable(dt, norm, t)
    requires EncoderState(ct.tableLog, x) && s < |norm| && norm[s] != 0
    ensures 0 <= StateSlot(ct, x, s) < |ct.stateTable|
    ensures EncoderState(ct.tableLog, ct.stateTable[StateSlot(ct, x, s)])
    ensures var nb, cell := NbBitsOut(ct, x, s), dt.cells[ct.stateTable[StateSlot(ct, x, s)] - Pow2(ct.tableLog)];
            && nb <= ct.tableLog
            && cell.symbol == s && cell.nbBits == nb
            && cell.newState + Low(x, nb) == x - Pow2(ct.tableLog)
  {
    var u := EncodeStep(ct, norm, t, x, s);
    var nb := NbBitsOut(ct, x, s);
    ShiftedLog(x, nb, ct.tableLog);
    ShiftBack(x, nb);
  }

  /** The encoder state a cell and its bits stand for. */
  lemma StateFromCell(tableLog: nat, next: nat, nb: nat, bits: nat)
    requires next >= 1 && Log2(next) + nb == tableLog && bits < Pow2(nb)
    ensures var x := Shl(next, nb) + bits;
            EncoderState(tableLog, x) && Shr(x, nb) == next && Low(x, nb) == bits
  {
    var x := Shl(next, nb) + bits;
    Pow2Add(Log2(next), nb);
    ShlIsTimes(next, nb);
    BetweenMultiples(Pow2(Log2(next)), next, Pow2(nb));
    MulDivMod(next, bits, Pow2(nb));
    ShrIsDiv(x, nb);
    LowIsMod(x, nb);
  }

  lemma BetweenMultiples(h: nat, next: nat, p: nat)
    requires h <= next < 2 * h
    ensures h * p <= next * p <= 2 * (h * p) - p
  {
    MulMonotone(h, next, p);
    MulMonotone(next + 1, 2 * h, p);
    assert (next + 1) * p == next * p + p;
    assert (2 * h) * p == 2 * (h * p);
  }

  /** Only one shift brings a number between c and 2c. */
  lemma {:induction false} SameShift(x: nat, c: nat, m: nat, n: nat)
    requires c >= 1
    requires Shr(x, m) < 2 * c && c <= Shr(x, n)
    ensures n <= m
  {
    if m < n {
      ShrShrinks(x, m, n - 1);
    }
  }

  lemma {:induction false} ShrShrinks(x: nat, m: nat, n: nat)
    requires m <= n
    ensures Shr(x, n) <= Shr(x, m)
  {
    if m < n {
      ShrShrinks(x, m, n - 1);
    }
  }

  lemma CellState(dt: DTable, norm: seq<int>, t: seq<nat>, u: nat, bits: nat)
    requires Fair(norm, t) && IsDTable(dt, norm, t) && |t| == Pow2(dt.tableLog)
    requires u < |t| && bits < Pow2(dt.cells[u].nbBits)
    ensures var x := |t| + dt.cells[u].newState + bits;
            && EncoderState(dt.tableLog, x)
            && Shr(x, dt.cells[u].nbBits) == NextState(norm, t, u)
            && Low(x, dt.cells[u].nbBits) == bits
  {
    var cell := dt.cells[u];
    assert IsCell(cell, NextState(norm, t, u), dt.tableLog);
    StateFromCell(dt.tableLog, NextState(norm, t, u), cell.nbBits, bits);
  }

  lemma StepBack(ct: CTable, norm: seq<int>, t: seq<nat>, u: nat, x: nat, nb: nat)
    requires Spreads(norm, ct.tableLog, t) && IsCTable(ct, norm, t)
    requires u < |t| && EncoderState(ct.tableLog, x) && Shr(x, nb) == NextState(norm, t, u)
    ensures norm[t[u]] != 0 && NbBitsOut(ct, x, t[u]) == nb
    ensures 0 <= StateSlot(ct, x, t[u]) < |t| && ct.stateTable[StateSlot(ct, x, t[u])] == |t| + u
  {
    var s, c := t[u], Share(norm[t[u]]);
    RankBelowShare(norm, t, u);
    ShareFits(norm, ct.tableLog, s);
    BitsOutInterval(x, c, ct.tableLog);
    var n := NbBitsOut(ct, x, s);
    assert n == BitsOut(x, DeltaNbBits(c, ct.tableLog));
    SameShift(x, c, n, nb);
    SameShift(x, c, nb, n);
    assert Slot(norm, t, u) == StateSlot(ct, x, s);
  }

  /** The other way round: whatever bits a cell is given, encoding its symbol from the state they
      lead to sends the same bits and comes back to the cell. */
  lemma EncodeUndoesDecode(ct: CTable, dt: DTable, norm: seq<int>, t: seq<nat>, u: nat, bits: nat, x: nat)
    requires Spreads(norm, ct.tableLog, t) && IsCTable(ct, norm, t)
    requires dt.tableLog == ct.tableLog && IsDTable(dt, norm, t)
    requires u < |t| && bits < Pow2(dt.cells[u].nbBits)
    requires x == |t| + dt.cells[u].newState + bits
    ensures EncoderState(ct.tableLog, x)
    ensures dt.cells[u].symbol < |norm| && norm[dt.cells[u].symbol] != 0
    ensures NbBitsOut(ct, x, dt.cells[u].symbol) == dt.cells[u].nbBits
    ensures Low(x, dt.cells[u].nbBits) == bits
    ensures 0 <= StateSlot(ct, x, dt.cells[u].symbol) < |t|
            && ct.stateTable[StateSlot(ct, x, dt.cells[u].symbol)] == |t| + u
  {
    CellState(dt, norm, t, u, bits);
    StepBack(ct, norm, t, u, x, dt.cells[u].nbBits);
  }

  // ----- the first symbol of a stream

  /** `nbBitsOut` and `value` of FSE_initCState2 */
  function InitBits(delta: int): int {
    (delta + 32768) / 65536
  }

  function InitShifted(delta: int): int {
    var n := InitBits(delta);
    if n < 0 || n * 65536 < delta then 0 else Shr(n * 65536 - delta, n)
  }

  function InitSlot(ct: CTable, s: nat): int
    requires s < |ct.symbolTT|
  {
    InitShifted(ct.symbolTT[s].deltaNbBits) + ct.symbolTT[s].deltaFindState
  }

  lemma InitFromMinState(m: nat, minStatePlus: nat)
    requires minStatePlus <= 32768
    ensures InitShifted(m * 65536 - minStatePlus) == Shr(minStatePlus, m)
  {
    hide Shr;
    DivModUnique(m * 65536 - minStatePlus + 32768, m, 32768 - minStatePlus, 65536);
  }

  lemma InitCount(c: nat, tableLog: nat)
    requires 1 <= c <= Pow2(tableLog) && tableLog <= MAX_TABLELOG
    ensures InitShifted(DeltaNbBits(c, tableLog)) == c
  {
    SmallTable(tableLog);
    if c == 1 {
      InitFromMinState(tableLog, Pow2(tableLog));
      BitsOutSingle(Pow2(tableLog), tableLog);
    } else {
      MaxBits(c, tableLog);
      InitFromMinState(MaxBitsOut(c, tableLog), Shl(c, MaxBitsOut(c, tableLog)));
      ShlThenShr(c, MaxBitsOut(c, tableLog));
    }
  }

  lemma InitCell(ct: CTable, norm: seq<int>, t: seq<nat>, s: nat) returns (u: nat)
    requires Spreads(norm, ct.tableLog, t) && IsCTable(ct, norm, t)
    requires s < |norm| && norm[s] != 0
    ensures u < |t| && 0 <= InitSlot(ct, s) < |t| && ct.stateTable[InitSlot(ct, s)] == |t| + u
    ensures t[u] == s && Occurrences(t, s, u) == 0
  {
    ShareFits(norm, ct.tableLog, s);
    InitCount(Share(norm[s]), ct.tableLog);
    u := CellOf(t, s, 0, |t|);
    assert Slot(norm, t, u) == InitSlot(ct, s);
  }

  lemma BitsAsked(dt: DTable, norm: seq<int>, t: seq<nat>, u: nat)
    requires Fair(norm, t) && IsDTable(dt, norm, t) && |t| == Pow2(dt.tableLog)
    requires u < |t| && NextState(norm, t, u) < |t|
    ensures dt.cells[u].nbBits >= 1
  {
    assert IsCell(dt.cells[u], NextState(norm, t, u), dt.tableLog);
  }

  /** FSE_initCState2 picks the smallest state that decodes to the symbol; unless the symbol owns the
      whole table, decoding it still asks for a bit. */
  lemma InitStateIsSmallest(ct: CTable, dt: DTable, norm: seq<int>, t: seq<nat>, s: nat)
    requires Spreads(norm, ct.tableLog, t) && IsCTable(ct, norm, t)
    requires dt.tableLog == ct.tableLog && IsDTable(dt, norm, t)
    requires s < |norm| && norm[s] != 0
    ensures 0 <= InitSlot(ct, s) < |t|
    ensures |t| <= ct.stateTable[InitSlot(ct, s)] < 2 * |t|
    ensures var u := ct.stateTable[InitSlot(ct, s)] - |t|;
            && dt.cells[u].symbol == s
            && (forall v: nat :: v < u ==> dt.cells[v].symbol != s)
            && (Share(norm[s]) < |t| ==> dt.cells[u].nbBits >= 1)
  {
    var u := InitCell(ct, norm, t, s);
    forall v: nat | v < u
      ensures dt.cells[v].symbol != s
    {
      OccurrencesMonotone(t, s, v + 1, u);
    }
    if Share(norm[s]) < |t| {
      BitsAsked(dt, norm, t, u);
    }
  }

  // ----- the encoder's table is determined by the distribution

  /** The symbol whose slots x is among. */
  lemma {:induction false} SymbolAtSlot(norm: seq<int>, x: nat, n: nat) returns (s: nat)
    requires n <= |norm| && x < Start(norm, n)
    ensures s < n && Start(norm, s) <= x < Start(norm, s) + Share(norm[s])
  {
    if x < Start(norm, n - 1) {
      s := SymbolAtSlot(norm, x, n - 1);
    } else {
      s := n - 1;
    }
  }

  /** Every slot is that of a cell. */
  lemma SlotFilled(norm: seq<int>, t: seq<nat>, x: nat) returns (u: nat)
    requires Fair(norm, t) && Start(norm, |norm|) == |t| && x < |t|
    ensures u < |t| && Slot(norm, t, u) == x
  {
    var s := SymbolAtSlot(norm, x, |norm|);
    u := CellOf(t, s, x - Start(norm, s), |t|);
  }

  /** With a share for every symbol there is only one table of each size. */
  lemma CTableUnique(ct: CTable, ct': CTable, norm: seq<int>, t: seq<nat>)
    requires Fair(norm, t) && Start(norm, |norm|) == |t| && forall s :: 0 <= s < |norm| ==> norm[s] != 0
    requires IsCTable(ct, norm, t) && IsCTable(ct', norm, t) && ct.tableLog == ct'.tableLog
    ensures ct == ct'
  {
    forall x: nat | x < |t|
      ensures ct.stateTable[x] == ct'.stateTable[x]
    {
      var u := SlotFilled(norm, t, x);
    }
    forall s: nat | s < |norm|
      ensures ct.symbolTT[s] == ct'.symbolTT[s]
    {
      assert IsTransform(ct.symbolTT[s], norm[s], Start(norm, s), ct.tableLog);
      assert IsTransform(ct'.symbolTT[s], norm[s], Start(norm, s), ct.tableLog);
    }
  }

  // ----- building the compression table

  /** Not an error the original reports: it goes on with cells that are not the shares of the counts. */
  const NOT_SHARES := "cells that are not the shares"

  /** How the builders end: they refuse counts that do not take the walk round whole laps, and have a table of
      the right shares exactly when the counts sum to its size. */
  predicate Judged<T>(r: Result<T>, norm: seq<int>, size: nat)
    requires LowFits(norm, size)
  {
    && (r.Ok? <==> Start(norm, |norm|) == size)
    && (r.Err? ==> r.error == if WholeLaps(norm, size) then NOT_SHARES else "GENERIC")
  }

  /** FSE_buildCTable */
  method BuildCTable(norm: seq<int>, tableLog: nat) returns (r: Result<CTable>)
    requires Counts(norm) && MIN_TABLELOG <= tableLog <= MAX_TABLELOG && LowFits(norm, Pow2(tableLog))
    ensures Judged(r, norm, Pow2(tableLog))
    ensures r.Ok? ==> r.value.tableLog == tableLog && Fair(norm, Cells(norm, tableLog))
                      && IsCTable(r.value, norm, Cells(norm, tableLog))
  {
    var tableSize := Pow2(tableLog);
    var tableSymbol := new nat[tableSize](_ => 0);
    var cumul, highThreshold := SymbolStarts(norm, tableSymbol);
    var ok := SpreadSymbolsLoop(norm, tableLog, tableSymbol, highThreshold);
    if !ok {
      return Err("GENERIC");
    }
    if Start(norm, |norm|) != tableSize {
      return Err(NOT_SHARES);
    }
    CellsAreFair(norm, tableLog);
    var tableU16 := SortStates(norm, tableSymbol[..], cumul);
    var symbolTT := BuildTransforms(norm, tableLog);
    r := Ok(CTable(tableLog, |norm| - 1, tableU16, symbolTT));
  }

  ghost predicate Starts(norm: seq<int>, cumul: seq<nat>, n: nat)
    requires n <= |norm| + 1 && n <= |cumul|
  {
    forall s: nat :: s < n ==> cumul[s] == Start(norm, s)
  }

  /** Symbol start positions; lays down the low-probability symbols on the way. */
  method SymbolStarts(norm: seq<int>, tableSymbol: array<nat>) returns (cumul: array<nat>, highThreshold: int)
    requires Counts(norm) && tableSymbol.Length >= |LowSymbols(norm, |norm|)|
    modifies tableSymbol
    ensures fresh(cumul) && cumul.Length == |norm| + 1
    ensures Starts(norm, cumul[..], |norm|)
    ensures -1 <= highThreshold == tableSymbol.Length - 1 - |LowSymbols(norm, |norm|)|
    ensures LowPlaced(norm, tableSymbol[..], |norm|)
  {
    cumul := new nat[|norm| + 1](_ => 0);
    highThreshold := tableSymbol.Length - 1;
    var u: nat := 1;
    while u <= |norm|
      invariant 1 <= u <= |norm| + 1
      invariant Starts(norm, cumul[..], u)
      invariant highThreshold == tableSymbol.Length - 1 - |LowSymbols(norm, u - 1)|
      invariant LowPlaced(norm, tableSymbol[..], u - 1)
    {
      LowPlacedNext(norm, tableSymbol[..], u - 1);
      ghost var symbols, starts := tableSymbol[..], cumul[..];
      if norm[u - 1] == -1 {
        cumul[u] := cumul[u - 1] + 1;
        tableSymbol[highThreshold] := u - 1;
        assert tableSymbol[..] == symbols[highThreshold := (u - 1) as nat];
        highThreshold := highThreshold - 1;
      } else {
        cumul[u] := cumul[u - 1] + norm[u - 1];
      }
      assert cumul[..] == starts[u := Start(norm, u)];
      u := u + 1;
    }
    ghost var starts := cumul[..];
    cumul[|norm|] := tableSymbol.Length + 1;
    assert cumul[..] == starts[|norm| := (tableSymbol.Length + 1) as nat];
  }

  lemma SortNext(norm: seq<int>, t: seq<nat>, states: seq<nat>, n: nat)
    requires Fair(norm, t) && Start(norm, |norm|) == |t| == |states| && n < |t|
    requires Sorted(norm, t, states, n)
    ensures Slot(norm, t, n) < |t| && Sorted(norm, t, states[Slot(norm, t, n) := |t| + n], n + 1)
  {
    SlotInRange(norm, t, n);
    forall v: nat | v < n
      ensures Slot(norm, t, v) != Slot(norm, t, n)
    {
      SlotsDiffer(norm, t, v, n);
    }
  }

  /** Every counter has moved past the cells of its symbol among the first n. */
  ghost predicate Counted(t: seq<nat>, before: seq<nat>, counters: seq<nat>, n: nat)
    requires n <= |t| && |before| == |counters|
  {
    forall s: nat :: s < |before| ==> counters[s] == before[s] + Occurrences(t, s, n)
  }

  /** The next states, sorted by symbol. */
  method SortStates(norm: seq<int>, t: seq<nat>, cumul: array<nat>) returns (tableU16: seq<nat>)
    requires Fair(norm, t) && Start(norm, |norm|) == |t|
    requires cumul.Length == |norm| + 1 && Starts(norm, cumul[..], |norm|)
    modifies cumul
    ensures |tableU16| == |t| && Sorted(norm, t, tableU16, |t|)
  {
    var states := new nat[|t|](_ => 0);
    var u: nat := 0;
    ghost var starts := cumul[..];
    while u < |t|
      invariant 0 <= u <= |t|
      invariant Counted(t, starts, cumul[..], u)
      invariant Sorted(norm, t, states[..], u)
    {
      SortNext(norm, t, states[..], u);
      ghost var before, counters := states[..], cumul[..];
      var s := t[u];
      assert counters[s] == Slot(norm, t, u);
      states[cumul[s]] := |t| + u;
      cumul[s] := cumul[s] + 1;
      assert states[..] == before[Slot(norm, t, u) := (|t| + u) as nat];
      assert cumul[..] == counters[s := counters[s] + 1];
      u := u + 1;
    }
    tableU16 := states[..];
  }

  /** The transform of one symbol. */
  method BuildTransform(count: int, total: nat, tableLog: nat) returns (symbolTT: Transform)
    requires -1 <= count <= Pow2(tableLog)
    ensures IsTransform(symbolTT, count, total, tableLog)
  {
    if count == 0 {
      symbolTT := Transform(0, (tableLog + 1) * 65536 - Pow2(tableLog));
    } else if count == -1 || count == 1 {
      symbolTT := Transform(total - 1, tableLog * 65536 - Pow2(tableLog));
    } else {
      LogBelow(count - 1, tableLog);
      var maxBitsOut := tableLog - Log2(count - 1);
      var minStatePlus := Shl(count, maxBitsOut);
      symbolTT := Transform(total - count, maxBitsOut * 65536 - minStatePlus);
    }
  }

  method BuildTransforms(norm: seq<int>, tableLog: nat) returns (symbolTT: seq<Transform>)
    requires Normalized(norm, tableLog)
    ensures |symbolTT| == |norm|
    ensures Transforms(norm, tableLog, symbolTT, |norm|)
  {
    symbolTT := [];
    var total, s := 0, 0;
    while s < |norm|
      invariant 0 <= s <= |norm| && |symbolTT| == s
      invariant total == Start(norm, s)
      invariant Transforms(norm, tableLog, symbolTT, s)
    {
      ShareFits(norm, tableLog, s);
      var transform := BuildTransform(norm[s], total, tableLog);
      symbolTT := symbolTT + [transform];
      total := total + Share(norm[s]);
      s := s + 1;
    }
  }

  // ----- building the decompression table

  /** FSE_buildDTable */
  method BuildDTable(norm: seq<int>, tableLog: nat) returns (r: Result<DTable>)
    requires |norm| >= 1 && tableLog >= MIN_TABLELOG && LowFits(norm, Pow2(tableLog))
    requires forall s :: 0 <= s < |norm| ==> -1 <= norm[s] < 32768
    ensures r.Ok? <==> Normalized(norm, tableLog)
    ensures |norm| > 256 ==> r == Err("maxSymbolValue_tooLarge")
    ensures |norm| <= 256 && tableLog > 14 ==> r == Err("tableLog_tooLarge")
    ensures |norm| <= 256 && tableLog <= 14 ==> Judged(r, norm, Pow2(tableLog))
    ensures r.Ok? ==> r.value.tableLog == tableLog && Fair(norm, Cells(norm, tableLog))
                      && IsDTable(r.value, norm, Cells(norm, tableLog))
  {
    if |norm| - 1 > MAX_SYMBOL_VALUE {
      return Err("maxSymbolValue_tooLarge");
    }
    if tableLog > MAX_TABLELOG {
      return Err("tableLog_tooLarge");
    }
    r := SpreadAndFill(norm, tableLog);
  }

  method SpreadAndFill(norm: seq<int>, tableLog: nat) returns (r: Result<DTable>)
    requires Counts(norm) && MIN_TABLELOG <= tableLog <= MAX_TABLELOG && LowFits(norm, Pow2(tableLog))
    ensures Judged(r, norm, Pow2(tableLog))
    ensures r.Ok? ==> r.value.tableLog == tableLog && Fair(norm, Cells(norm, tableLog))
                      && IsDTable(r.value, norm, Cells(norm, tableLog))
  {
    var tableSize := Pow2(tableLog);
    var symbols := new nat[tableSize](_ => 0);
    var symbolNext, highThreshold, fastMode := LayLowSymbols(norm, tableLog, symbols);
    var ok := SpreadSymbolsLoop(norm, tableLog, symbols, highThreshold);
    if !ok {
      return Err("GENERIC");
    }
    if Start(norm, |norm|) != tableSize {
      return Err(NOT_SHARES);
    }
    CellsAreFair(norm, tableLog);
    var cells := FillCells(norm, tableLog, symbols[..], symbolNext);
    r := Ok(DTable(tableLog, fastMode, cells));
  }

  /** Lays down the low-probability symbols and starts each symbol's counter at its count. */
  method LayLowSymbols(norm: seq<int>, tableLog: nat, symbols: array<nat>)
    returns (symbolNext: array<nat>, highThreshold: int, fastMode: bool)
    requires Counts(norm) && tableLog >= 1 && symbols.Length >= |LowSymbols(norm, |norm|)|
    modifies symbols
    ensures fresh(symbolNext) && symbolNext.Length == |norm|
    ensures forall s: nat :: s < |norm| ==> symbolNext[s] == Share(norm[s])
    ensures -1 <= highThreshold == symbols.Length - 1 - |LowSymbols(norm, |norm|)|
    ensures LowPlaced(norm, symbols[..], |norm|)
    ensures fastMode <==> forall s: nat :: s < |norm| ==> norm[s] < Pow2(tableLog - 1)
  {
    hide Pow2;
    symbolNext := new nat[|norm|](_ => 0);
    highThreshold, fastMode := symbols.Length - 1, true;
    var largeLimit := Pow2(tableLog - 1);
    var s: nat := 0;
    while s < |norm|
      invariant 0 <= s <= |norm|
      invariant forall i: nat :: i < s ==> symbolNext[i] == Share(norm[i])
      invariant fastMode <==> forall i: nat :: i < s ==> norm[i] < Pow2(tableLog - 1)
      invariant highThreshold == symbols.Length - 1 - |LowSymbols(norm, s)|
      invariant LowPlaced(norm, symbols[..], s)
    {
      LowPlacedNext(norm, symbols[..], s);
      if norm[s] == -1 {
        ghost var before := symbols[..];
        symbols[highThreshold] := s;
        assert symbols[..] == before[highThreshold := s as nat];
        highThreshold := highThreshold - 1;
        symbolNext[s] := 1;
      } else {
        if norm[s] >= largeLimit {
          fastMode := false;
        }
        symbolNext[s] := norm[s];
      }
      s := s + 1;
    }
  }

  lemma NextStateFits(norm: seq<int>, tableLog: nat, t: seq<nat>, u: nat)
    requires Spreads(norm, tableLog, t) && u < |t|
    ensures NextState(norm, t, u) >= 1 && Log2(NextState(norm, t, u)) <= tableLog
  {
    RankBelowShare(norm, t, u);
    ShareFits(norm, tableLog, t[u]);
    LogBelow(NextState(norm, t, u), tableLog + 1);
  }

  lemma NewStateFits(next: nat, tableLog: nat)
    requires next >= 1 && Log2(next) <= tableLog
    ensures Shl(next, tableLog - Log2(next)) >= Pow2(tableLog)
  {
    StateFromCell(tableLog, next, tableLog - Log2(next), 0);
  }

  lemma NothingCounted(t: seq<nat>, before: seq<nat>)
    ensures Counted(t, before, before, 0)
  {
  }

  /** The counter of the symbol in cell u is the state that the cell comes from. */
  lemma CountNow(norm: seq<int>, t: seq<nat>, before: seq<nat>, counters: seq<nat>, u: nat)
    requires Fair(norm, t) && u < |t| && |norm| == |before| == |counters| && Counted(t, before, counters, u)
    requires forall s: nat :: s < |norm| ==> before[s] == Share(norm[s])
    ensures t[u] < |norm| && counters[t[u]] == NextState(norm, t, u)
  {
  }

  lemma CountedNext(t: seq<nat>, before: seq<nat>, counters: seq<nat>, u: nat)
    requires u < |t| && |before| == |counters| && t[u] < |before| && Counted(t, before, counters, u)
    ensures Counted(t, before, counters[t[u] := counters[t[u]] + 1], u + 1)
  {
  }

  lemma SpreadsAreFair(norm: seq<int>, tableLog: nat, t: seq<nat>)
    requires Spreads(norm, tableLog, t)
    ensures Fair(norm, t) && |t| == Pow2(tableLog)
  {
  }

  method FillCells(norm: seq<int>, tableLog: nat, t: seq<nat>, symbolNext: array<nat>) returns (cells: seq<Cell>)
    requires Spreads(norm, tableLog, t)
    requires symbolNext.Length == |norm|
    requires forall s: nat :: s < |norm| ==> symbolNext[s] == Share(norm[s])
    modifies symbolNext
    ensures |cells| == |t| && Filled(norm, tableLog, t, cells, |t|)
  {
    hide Fair, Occurrences, Shl, Pow2, Log2, Share, Spreads, NextState, Counted;
    SpreadsAreFair(norm, tableLog, t);
    cells := [];
    var u: nat := 0;
    ghost var shares := symbolNext[..];
    NothingCounted(t, shares);
    while u < |t|
      invariant 0 <= u <= |t| && |cells| == u
      invariant Counted(t, shares, symbolNext[..], u)
      invariant Filled(norm, tableLog, t, cells, u)
    {
      NextStateFits(norm, tableLog, t, u);
      CountNow(norm, t, shares, symbolNext[..], u);
      CountedNext(t, shares, symbolNext[..], u);
      ghost var counters := symbolNext[..];
      var symbol := t[u];
      var nextState := symbolNext[symbol];
      symbolNext[symbol] := nextState + 1;
      assert symbolNext[..] == counters[symbol := nextState + 1];
      var nbBits := tableLog - Log2(nextState);
      NewStateFits(nextState, tableLog);
      cells := cells + [Cell(Shl(nextState, nbBits) - |t|, symbol, nbBits)];
      u := u + 1;
    }
  }
}
