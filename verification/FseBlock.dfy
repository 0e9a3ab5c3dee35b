/** Compressing and decompressing a block of symbols with the FSE tables: two interleaved encoder
    states walk the source backwards, two decoder states rebuild it forwards. */
module FseBlock {
  import opened Powers
  import opened Bytes
  import opened Spread
  import opened FseTables
  import opened Wrappers
  import opened BitStream

  // ----- what the encoder computes

  /** The two encoder states and the bits sent so far. */
  datatype Coder = Coder(x1: nat, x2: nat, bits: Bits)

  function NextStateOf(ct: CTable, slot: int): nat {
    if 0 <= slot < |ct.stateTable| then ct.stateTable[slot] else 0
  }

  /** One encoding step; symbols at even positions go through the first state. */
  function EncodeAt(ct: CTable, c: Coder, i: nat, s: nat): Coder
    requires s < |ct.symbolTT|
  {
    var x := if i % 2 == 0 then c.x1 else c.x2;
    var n := NbBitsOut(ct, x, s);
    var x' := NextStateOf(ct, StateSlot(ct, x, s));
    var bits := Push(c.bits, Low(x, n), n);
    if i % 2 == 0 then Coder(x', c.x2, bits) else Coder(c.x1, x', bits)
  }

  ghost predicate Symbols(ct: CTable, src: seq<Byte>) {
    |src| >= 2 && forall i :: 0 <= i < |src| ==> src[i] < |ct.symbolTT|
  }

  /** The encoder once it has taken the symbols of `src` from the last one back to position i. */
  ghost function Encoded(ct: CTable, src: seq<Byte>, i: nat): Coder
    requires Symbols(ct, src) && i <= |src| - 2
    decreases |src| - i
  {
    if i == |src| - 2 then
      var last := NextStateOf(ct, InitSlot(ct, src[i + 1]));
      var first := NextStateOf(ct, InitSlot(ct, src[i]));
      if i % 2 == 0 then Coder(first, last, EMPTY) else Coder(last, first, EMPTY)
    else
      EncodeAt(ct, Encoded(ct, src, i + 1), i, src[i])
  }

  /** The content of the finished stream: the second state is flushed before the first. */
  ghost function Block(ct: CTable, src: seq<Byte>): Bits
    requires Symbols(ct, src)
  {
    var c := Encoded(ct, src, 0);
    Push(Push(c.bits, Low(c.x2, ct.tableLog), ct.tableLog), Low(c.x1, ct.tableLog), ct.tableLog)
  }

  // ----- the tables of one distribution

  ghost predicate EncoderTable(ct: CTable, norm: seq<int>, t: seq<nat>) {
    Spreads(norm, ct.tableLog, t) && IsCTable(ct, norm, t)
  }

  ghost predicate DecoderTable(dt: DTable, norm: seq<int>, t: seq<nat>) {
    Spreads(norm, dt.tableLog, t) && IsDTable(dt, norm, t)
  }

  /** Every symbol of the source has a share of the table. */
  predicate Covered(norm: seq<int>, src: seq<Byte>) {
    forall i :: 0 <= i < |src| ==> src[i] < |norm| && norm[src[i]] != 0
  }

  lemma TableFacts(ct: CTable, norm: seq<int>, t: seq<nat>, src: seq<Byte>)
    requires EncoderTable(ct, norm, t) && Covered(norm, src)
    ensures |src| >= 2 ==> Symbols(ct, src)
    ensures 1 <= ct.tableLog <= MAX_TABLELOG && |t| == Pow2(ct.tableLog)
  {
  }

  ghost predicate InRange(tableLog: nat, c: Coder) {
    EncoderState(tableLog, c.x1) && EncoderState(tableLog, c.x2) && Proper(c.bits)
  }

  lemma InitInRange(ct: CTable, norm: seq<int>, t: seq<nat>, s: nat)
    requires EncoderTable(ct, norm, t) && s < |norm| && norm[s] != 0
    ensures EncoderState(ct.tableLog, NextStateOf(ct, InitSlot(ct, s)))
  {
    var u := InitCell(ct, norm, t, s);
  }

  lemma EncodeAtInRange(ct: CTable, norm: seq<int>, t: seq<nat>, c: Coder, i: nat, s: nat)
    requires EncoderTable(ct, norm, t) && s < |norm| && norm[s] != 0 && InRange(ct.tableLog, c)
    ensures InRange(ct.tableLog, EncodeAt(ct, c, i, s))
    ensures c.bits.length <= EncodeAt(ct, c, i, s).bits.length <= c.bits.length + ct.tableLog
  {
    var x := if i % 2 == 0 then c.x1 else c.x2;
    var n := NbBitsOut(ct, x, s);
    var u := EncodeStep(ct, norm, t, x, s);
    LowBelow(x, n);
    PushProper(c.bits, Low(x, n), n);
  }

  /** The states stay in range, and every symbol costs at most tableLog bits. */
  lemma {:induction false} EncodedInRange(ct: CTable, norm: seq<int>, t: seq<nat>, src: seq<Byte>, i: nat)
    requires EncoderTable(ct, norm, t) && Covered(norm, src) && |src| >= 2 && i <= |src| - 2
    ensures InRange(ct.tableLog, Encoded(ct, src, i))
    ensures Encoded(ct, src, i).bits.length <= ct.tableLog * (|src| - 2 - i)
    decreases |src| - i
  {
    hide Spreads, IsCTable, EncodeAt, EncoderState, NextStateOf;
    TableFacts(ct, norm, t, src);
    if i == |src| - 2 {
      InitInRange(ct, norm, t, src[i]);
      InitInRange(ct, norm, t, src[i + 1]);
    } else {
      EncodedInRange(ct, norm, t, src, i + 1);
      EncodeAtInRange(ct, norm, t, Encoded(ct, src, i + 1), i, src[i]);
      assert ct.tableLog * (|src| - 2 - i) == ct.tableLog * (|src| - 2 - (i + 1)) + ct.tableLog;
    }
  }

  lemma {:induction false} EncodedGrows(ct: CTable, src: seq<Byte>, i: nat, j: nat)
    requires Symbols(ct, src) && i <= j <= |src| - 2
    ensures Encoded(ct, src, j).bits.length <= Encoded(ct, src, i).bits.length
    decreases j - i
  {
    if i < j {
      EncodedGrows(ct, src, i + 1, j);
    }
  }

  // ----- compression

  /** FSE_initCState2 */
  method InitCState2(ct: CTable, ghost norm: seq<int>, ghost t: seq<nat>, symbol: nat) returns (x: nat)
    requires EncoderTable(ct, norm, t) && symbol < |norm| && norm[symbol] != 0
    ensures x == NextStateOf(ct, InitSlot(ct, symbol)) && EncoderState(ct.tableLog, x)
  {
    ghost var u := InitCell(ct, norm, t, symbol);
    x := ct.stateTable[InitSlot(ct, symbol)];
  }

  /** FSE_encodeSymbol */
  method EncodeSymbol(bitC: CStream, ct: CTable, ghost norm: seq<int>, ghost t: seq<nat>, x: nat, symbol: nat)
    returns (x': nat)
    requires EncoderTable(ct, norm, t) && symbol < |norm| && norm[symbol] != 0 && EncoderState(ct.tableLog, x)
    requires bitC.Valid() && bitC.bitPos + ct.tableLog < REGISTER
    modifies bitC`bitContainer, bitC`bitPos, bitC`content
    ensures bitC.Valid() && bitC.bitPos <= old(bitC.bitPos) + ct.tableLog
    ensures x' == NextStateOf(ct, StateSlot(ct, x, symbol)) && EncoderState(ct.tableLog, x')
    ensures var n := NbBitsOut(ct, x, symbol); bitC.content == Push(old(bitC.content), Low(x, n), n)
  {
    ghost var u := EncodeStep(ct, norm, t, x, symbol);
    var nbBitsOut := NbBitsOut(ct, x, symbol);
    bitC.AddBits(x, nbBitsOut);
    x' := ct.stateTable[StateSlot(ct, x, symbol)];
  }

  /** FSE_flushCState */
  method FlushCState(bitC: CStream, x: nat, stateLog: nat)
    requires bitC.Valid() && stateLog <= MAX_TABLELOG && bitC.bitPos <= 7
    modifies bitC, bitC.dst
    ensures bitC.Valid() && bitC.bitPos <= 7
    ensures bitC.content == Push(old(bitC.content), Low(x, stateLog), stateLog)
  {
    bitC.AddBits(x, stateLog);
    bitC.FlushBits();
  }

  /** The bits of the symbols from position ip on leave no room for the next store of the register. */
  ghost predicate NoRoom(ct: CTable, src: seq<Byte>, ip: nat, endPtr: int)
    requires Symbols(ct, src) && ip <= |src| - 2
  {
    Encoded(ct, src, ip).bits.length / 8 > endPtr
  }

  lemma StillNoRoom(ct: CTable, src: seq<Byte>, ip: nat, endPtr: int)
    requires Symbols(ct, src) && ip <= |src| - 2 && NoRoom(ct, src, ip, endPtr)
    ensures NoRoom(ct, src, 0, endPtr)
  {
    hide Encoded;
    EncodedGrows(ct, src, 0, ip);
  }

  /** FSE_FLUSHBITS. The fast flush does not look at the end of the buffer: when it moves the write
      pointer past the last place where a register fits, the next store ends outside. */
  method FlushLoop(bitC: CStream, fast: bool, ghost ct: CTable, ghost src: seq<Byte>, ghost ip: nat,
                   ghost x1: nat, ghost x2: nat)
    returns (inside: bool)
    requires bitC.Valid() && (fast ==> !bitC.clipped)
    requires Symbols(ct, src) && At(ct, src, ip, x1, x2, bitC.content)
    modifies bitC`bitContainer, bitC`bitPos, bitC`ptr, bitC`clipped, bitC.dst
    ensures inside ==> bitC.Valid() && bitC.bitPos <= 7 && (fast ==> !bitC.clipped && !NoRoom(ct, src, ip, bitC.endPtr))
    ensures !inside ==> fast && NoRoom(ct, src, 0, bitC.endPtr)
  {
    hide Encoded;
    if fast {
      if bitC.ptr + bitC.bitPos / 8 > bitC.endPtr {
        StillNoRoom(ct, src, ip, bitC.endPtr);
        return false;
      }
      bitC.FlushBitsFast();
    } else {
      bitC.FlushBits();
    }
    inside := true;
  }

  /** The encoder's variables hold what `Encoded` says for position ip. */
  ghost predicate At(ct: CTable, src: seq<Byte>, ip: int, x1: nat, x2: nat, content: Bits)
    requires Symbols(ct, src)
  {
    0 <= ip <= |src| - 2 && Encoded(ct, src, ip) == Coder(x1, x2, content)
  }

  lemma AtStart(ct: CTable, src: seq<Byte>, x: nat, y: nat)
    requires Symbols(ct, src)
    requires x == NextStateOf(ct, InitSlot(ct, src[|src| - 2])) && y == NextStateOf(ct, InitSlot(ct, src[|src| - 1]))
    ensures |src| % 2 == 0 ==> At(ct, src, |src| - 2, x, y, EMPTY)
    ensures |src| % 2 == 1 ==> At(ct, src, |src| - 2, y, x, EMPTY)
  {
    hide NextStateOf, InitSlot;
  }

  /** One more symbol, through the state whose turn it is. */
  lemma AtNext(ct: CTable, src: seq<Byte>, ip: nat, x1: nat, x2: nat, content: Bits)
    requires Symbols(ct, src) && ip >= 1 && At(ct, src, ip, x1, x2, content)
    ensures var x, s := if ip % 2 == 1 then x1 else x2, src[ip - 1];
            var x', bits := NextStateOf(ct, StateSlot(ct, x, s)), Push(content, Low(x, NbBitsOut(ct, x, s)), NbBitsOut(ct, x, s));
            At(ct, src, ip - 1, if ip % 2 == 1 then x' else x1, if ip % 2 == 1 then x2 else x', bits)
  {
    hide NextStateOf, StateSlot, NbBitsOut, Low, Push;
  }

  /** Two symbols, the second state first. */
  method EncodePair(bitC: CStream, ct: CTable, ghost norm: seq<int>, ghost t: seq<nat>, src: seq<Byte>,
                    ip: nat, x1: nat, x2: nat) returns (x1': nat, x2': nat)
    requires EncoderTable(ct, norm, t) && Covered(norm, src) && |src| >= 2
    requires bitC.Valid() && bitC.bitPos + 2 * ct.tableLog < REGISTER
    requires ip >= 2 && ip % 2 == 0 && At(ct, src, ip, x1, x2, bitC.content)
    modifies bitC`bitContainer, bitC`bitPos, bitC`content
    ensures bitC.Valid() && bitC.bitPos <= old(bitC.bitPos) + 2 * ct.tableLog
    ensures At(ct, src, ip - 2, x1', x2', bitC.content)
  {
    hide Spreads, IsCTable, EncoderState, NextStateOf, NbBitsOut, StateSlot, Push, Low;
    TableFacts(ct, norm, t, src);
    EncodedInRange(ct, norm, t, src, ip);
    AtNext(ct, src, ip, x1, x2, bitC.content);
    x2' := EncodeSymbol(bitC, ct, norm, t, x2, src[ip - 1]);
    AtNext(ct, src, ip - 1, x1, x2', bitC.content);
    x1' := EncodeSymbol(bitC, ct, norm, t, x1, src[ip - 2]);
  }

  /** Four symbols and a flush. */
  method EncodeFour(bitC: CStream, ct: CTable, fast: bool, ghost norm: seq<int>, ghost t: seq<nat>, src: seq<Byte>,
                    ip: nat, x1: nat, x2: nat) returns (x1': nat, x2': nat, inside: bool)
    requires EncoderTable(ct, norm, t) && Covered(norm, src) && |src| >= 2 && Symbols(ct, src)
    requires bitC.Valid() && bitC.bitPos <= 7
    requires ip >= 4 && ip % 2 == 0 && At(ct, src, ip, x1, x2, bitC.content)
    requires fast ==> !bitC.clipped
    modifies bitC, bitC.dst
    ensures inside ==> bitC.Valid() && bitC.bitPos <= 7 && At(ct, src, ip - 4, x1', x2', bitC.content)
    ensures inside && fast ==> !bitC.clipped && !NoRoom(ct, src, ip - 4, bitC.endPtr)
    ensures !inside ==> fast && NoRoom(ct, src, 0, bitC.endPtr)
  {
    hide Spreads, IsCTable, EncoderState, Encoded, NoRoom;
    TableFacts(ct, norm, t, src);
    x1', x2' := EncodePair(bitC, ct, norm, t, src, ip, x1, x2);
    x1', x2' := EncodePair(bitC, ct, norm, t, src, ip - 2, x1', x2');
    inside := FlushLoop(bitC, fast, ct, src, ip - 4, x1', x2');
  }

  lemma JoinMod4(n: nat)
    requires n >= 3
    ensures var ip := if n % 2 == 1 then n - 3 else n - 2;
            ip % 2 == 0 && (if ((n - 2) / 2) % 2 == 1 then ip >= 2 && (ip - 2) % 4 == 0 else ip % 4 == 0)
  {
    var q, r := n / 4, n % 4;
    assert n == 4 * q + r;
  }

  lemma RoomAtStart(ct: CTable, src: seq<Byte>, endPtr: int)
    requires Symbols(ct, src) && endPtr >= 0
    ensures !NoRoom(ct, src, |src| - 2, endPtr)
  {
  }

  /** The symbols that go into the states, and one more when their number is odd. */
  method InitStates(bitC: CStream, ct: CTable, fast: bool, ghost norm: seq<int>, ghost t: seq<nat>, src: seq<Byte>)
    returns (x1: nat, x2: nat, ip: nat, inside: bool)
    requires EncoderTable(ct, norm, t) && Covered(norm, src) && |src| >= 3 && Symbols(ct, src)
    requires bitC.Valid() && bitC.bitPos == bitC.ptr == 0 && bitC.content == EMPTY && !bitC.clipped
    modifies bitC, bitC.dst
    ensures inside ==> bitC.Valid() && bitC.bitPos <= 7
    ensures ip == if |src| % 2 == 1 then |src| - 3 else |src| - 2
    ensures inside ==> At(ct, src, ip, x1, x2, bitC.content)
    ensures inside && fast ==> !bitC.clipped && !NoRoom(ct, src, ip, bitC.endPtr)
    ensures !inside ==> fast && NoRoom(ct, src, 0, bitC.endPtr)
  {
    hide EncoderTable, EncoderState, NextStateOf, NbBitsOut, StateSlot, InitSlot, Low, Encoded, Push, Symbols, NoRoom;
    TableFacts(ct, norm, t, src);
    inside := true;
    if |src| % 2 == 1 {
      x1 := InitCState2(ct, norm, t, src[|src| - 1]);
      x2 := InitCState2(ct, norm, t, src[|src| - 2]);
      AtStart(ct, src, x2, x1);
      AtNext(ct, src, |src| - 2, x1, x2, bitC.content);
      x1 := EncodeSymbol(bitC, ct, norm, t, x1, src[|src| - 3]);
      ip := |src| - 3;
      inside := FlushLoop(bitC, fast, ct, src, ip, x1, x2);
    } else {
      x2 := InitCState2(ct, norm, t, src[|src| - 1]);
      x1 := InitCState2(ct, norm, t, src[|src| - 2]);
      AtStart(ct, src, x1, x2);
      ip := |src| - 2;
      RoomAtStart(ct, src, bitC.endPtr);
    }
  }

  /** Up to where the symbols that are left are a multiple of four. */
  method StartBlock(bitC: CStream, ct: CTable, fast: bool, ghost norm: seq<int>, ghost t: seq<nat>, src: seq<Byte>)
    returns (x1: nat, x2: nat, ip: nat, inside: bool)
    requires EncoderTable(ct, norm, t) && Covered(norm, src) && |src| >= 3 && Symbols(ct, src)
    requires bitC.Valid() && bitC.bitPos == bitC.ptr == 0 && bitC.content == EMPTY && !bitC.clipped
    modifies bitC, bitC.dst
    ensures inside ==> bitC.Valid() && bitC.bitPos <= 7
    ensures inside ==> ip % 4 == 0 && At(ct, src, ip, x1, x2, bitC.content)
    ensures inside && fast ==> !bitC.clipped && !NoRoom(ct, src, ip, bitC.endPtr)
    ensures !inside ==> fast && NoRoom(ct, src, 0, bitC.endPtr)
  {
    hide Spreads, IsCTable, EncoderState, Encoded, NoRoom;
    TableFacts(ct, norm, t, src);
    JoinMod4(|src|);
    x1, x2, ip, inside := InitStates(bitC, ct, fast, norm, t, src);
    // join to mod 4
    if inside && ((|src| - 2) / 2) % 2 == 1 {
      x1, x2 := EncodePair(bitC, ct, norm, t, src, ip, x1, x2);
      ip := ip - 2;
      inside := FlushLoop(bitC, fast, ct, src, ip, x1, x2);
    }
  }

  /** The two states and the end mark. */
  method FinishBlock(bitC: CStream, ct: CTable, src: seq<Byte>, x1: nat, x2: nat) returns (size: nat)
    requires Symbols(ct, src) && ct.tableLog <= MAX_TABLELOG && bitC.Valid() && bitC.bitPos <= 7
    requires At(ct, src, 0, x1, x2, bitC.content)
    modifies bitC, bitC.dst
    ensures size == 0 <==> (Block(ct, src).length + 1) / 8 >= bitC.endPtr
    ensures size != 0 ==> size < bitC.dst.Length && IsStream(bitC.dst[..size], Block(ct, src)) && Proper(Block(ct, src))
  {
    hide Encoded, Low, Push, IsStream;
    FlushCState(bitC, x2, ct.tableLog);
    FlushCState(bitC, x1, ct.tableLog);
    size := bitC.Close();
  }

  /** What compressing into a buffer of this length gives: no size for a source that is too short or a
      block that does not fit, and in the fast mode a store past the end of the buffer when the symbols
      leave no room for the states. */
  ghost predicate Compressed(r: Result<nat>, dst: seq<Byte>, src: seq<Byte>, ct: CTable, fast: bool)
  {
    if |src| <= 2 || |dst| <= 8 then r == Ok(0)
    else
      && Symbols(ct, src)
      && if fast && NoRoom(ct, src, 0, |dst| - 8) then r == Err(PAST_END)
         else if (Block(ct, src).length + 1) / 8 >= |dst| - 8 then r == Ok(0)
         else r.Ok? && 0 < r.value < |dst| && IsStream(dst[..r.value], Block(ct, src)) && Proper(Block(ct, src))
  }

  /** FSE_compress_usingCTable_generic */
  method CompressGeneric(dst: array<Byte>, src: seq<Byte>, ct: CTable, fast: bool,
                         ghost norm: seq<int>, ghost t: seq<nat>) returns (r: Result<nat>)
    requires EncoderTable(ct, norm, t) && (|src| > 2 ==> Covered(norm, src))
    modifies dst
    ensures Compressed(r, dst[..], src, ct, fast)
  {
    hide EncoderTable, Covered, Symbols, Encoded, Block, IsStream, CStream.Valid, NoRoom;
    if |src| <= 2 {
      return Ok(0);
    }
    TableFacts(ct, norm, t, src);
    var bitC := new CStream(dst);
    if dst.Length <= 8 {
      return Ok(0);
    }
    var x1, x2, ip, inside := StartBlock(bitC, ct, fast, norm, t, src);
    while inside && ip > 0
      invariant inside ==> ip % 4 == 0 && At(ct, src, ip, x1, x2, bitC.content)
      invariant inside ==> bitC.Valid() && bitC.bitPos <= 7
      invariant inside && fast ==> !bitC.clipped && ip <= |src| - 2 && !NoRoom(ct, src, ip, bitC.endPtr)
      invariant !inside ==> fast && NoRoom(ct, src, 0, bitC.endPtr)
      decreases inside, ip
    {
      x1, x2, inside := EncodeFour(bitC, ct, fast, norm, t, src, ip, x1, x2);
      ip := ip - 4;
    }
    if !inside {
      return Err(PAST_END);
    }
    var size := FinishBlock(bitC, ct, src, x1, x2);
    r := Ok(size);
    assert size != 0 ==> dst[..][..size] == dst[..size];
  }

  /** FSE_BLOCKBOUND */
  function BlockBound(size: nat): nat {
    size + size / 128
  }

  /** FSE_compress_usingCTable */
  method CompressUsingCTable(dst: array<Byte>, src: seq<Byte>, ct: CTable, ghost norm: seq<int>, ghost t: seq<nat>)
    returns (r: Result<nat>)
    requires EncoderTable(ct, norm, t) && (|src| > 2 ==> Covered(norm, src))
    modifies dst
    ensures Compressed(r, dst[..], src, ct, dst.Length >= |src| + |src| / 128)
  {
    r := CompressGeneric(dst, src, ct, dst.Length >= BlockBound(|src|), norm, t);
  }

  lemma RoomOfProduct(n: nat, k: nat, loop: nat, size: nat)
    requires n >= 2 && loop <= k * (n - 2) && size >= n * k / 8 + 9
    ensures loop / 8 <= size - 8 && (size > n * k / 8 + 9 ==> (loop + 2 * k + 1) / 8 < size - 8)
  {
    var p := n * k;
    assert k * (n - 2) == p - 2 * k;
  }

  /** A size that is always enough: no store leaves a buffer this large, and a buffer one byte larger holds
      the block. */
  lemma RoomForBits(ct: CTable, norm: seq<int>, t: seq<nat>, src: seq<Byte>, size: nat)
    requires EncoderTable(ct, norm, t) && Covered(norm, src) && |src| >= 3
    requires size >= |src| * ct.tableLog / 8 + 9
    ensures Symbols(ct, src) && !NoRoom(ct, src, 0, size - 8)
    ensures size > |src| * ct.tableLog / 8 + 9 ==> (Block(ct, src).length + 1) / 8 < size - 8
  {
    hide EncoderTable, Encoded, Symbols, Block;
    TableFacts(ct, norm, t, src);
    EncodedInRange(ct, norm, t, src, 0);
    RoomOfProduct(|src|, ct.tableLog, Encoded(ct, src, 0).bits.length, size);
    BlockLength(ct, src);
  }

  lemma BlockLength(ct: CTable, src: seq<Byte>)
    requires Symbols(ct, src)
    ensures Block(ct, src).length == Encoded(ct, src, 0).bits.length + 2 * ct.tableLog
  {
    hide Encoded;
  }

  /** A symbol with a single cell is sent with as many bits as the table has. */
  lemma RareBits(ct: CTable, norm: seq<int>, t: seq<nat>, x: nat, s: nat)
    requires EncoderTable(ct, norm, t) && s < |norm| && Share(norm[s]) == 1 && EncoderState(ct.tableLog, x)
    ensures NbBitsOut(ct, x, s) == ct.tableLog
  {
    hide Sorted, Transforms, NbBitsOut, EncoderState, Shr;
    var u := EncodeStep(ct, norm, t, x, s);
    RankBelowShare(norm, t, u);
    ShiftedLog(x, NbBitsOut(ct, x, s), ct.tableLog);
    assert Shr(x, NbBitsOut(ct, x, s)) == 1;
  }

  lemma {:induction false} RareRun(ct: CTable, norm: seq<int>, t: seq<nat>, src: seq<Byte>, s: nat, i: nat)
    requires EncoderTable(ct, norm, t) && s < |norm| && Share(norm[s]) == 1
    requires |src| >= 2 && (forall j :: 0 <= j < |src| ==> src[j] == s) && i <= |src| - 2
    ensures Symbols(ct, src) && Encoded(ct, src, i).bits.length == ct.tableLog * (|src| - 2 - i)
    decreases |src| - i
  {
    hide EncoderTable, NextStateOf, StateSlot, EncoderState, NbBitsOut;
    assert Covered(norm, src);
    TableFacts(ct, norm, t, src);
    if i < |src| - 2 {
      RareRun(ct, norm, t, src, s, i + 1);
      EncodedInRange(ct, norm, t, src, i + 1);
      var c := Encoded(ct, src, i + 1);
      RareBits(ct, norm, t, if i % 2 == 0 then c.x1 else c.x2, s);
      assert ct.tableLog * (|src| - 2 - i) == ct.tableLog * (|src| - 2 - (i + 1)) + ct.tableLog;
    }
  }

  lemma BeyondBound(n: nat, k: nat)
    requires n >= 9 && k >= 9
    ensures k * (n - 2) / 8 > BlockBound(n) - 8
  {
    MulMonotone(9, k, n - 2);
  }

  /** A buffer of `BlockBound` bytes is compressed into without looking at its end, and is not large
      enough: a run of a symbol that has a single cell goes past it. */
  lemma RarePassesBound(ct: CTable, norm: seq<int>, t: seq<nat>, src: seq<Byte>, s: nat)
    requires EncoderTable(ct, norm, t) && ct.tableLog >= 9 && s < |norm| && Share(norm[s]) == 1
    requires |src| >= 9 && forall j :: 0 <= j < |src| ==> src[j] == s
    ensures Symbols(ct, src) && NoRoom(ct, src, 0, BlockBound(|src|) - 8)
  {
    hide EncoderTable, Encoded, Share;
    RareRun(ct, norm, t, src, s, 0);
    BeyondBound(|src|, ct.tableLog);
  }

  /** Nine symbols into nine bytes, with a table of 512 cells of which the symbol has one. */
  method BoundNotEnough() returns (r: Result<nat>)
    ensures r == Err(PAST_END)
  {
    var norm, src: seq<Byte> := [511, 1], seq(9, _ => 1);
    TwoSymbols(norm, 9, 511);
    OneLap(norm, Pow2(9));
    var built := BuildCTable(norm, 9);
    var dst := new Byte[BlockBound(9)](_ => 0);
    ghost var t := Cells(norm, 9);
    hide Cells, IsCTable, Encoded, Block, IsStream, NoRoom;
    RarePassesBound(built.value, norm, t, src, 1);
    r := CompressUsingCTable(dst, src, built.value, norm, t);
  }

  lemma TwoSymbols(norm: seq<int>, tableLog: nat, n: nat)
    requires tableLog == 9 && n == 511 && norm == [n, 1]
    ensures Normalized(norm, tableLog) && Start(norm, |norm|) == Pow2(tableLog)
  {
    assert Start(norm, 2) == Start(norm, 1) + 1 && Start(norm, 1) == Start(norm, 0) + n;
    assert Pow2(9) == 512;
  }

  // ----- decompression

  /** Decoding in cell u gives the symbol and takes its bits off the stack to reach cell u'. */
  predicate Decodes(dt: DTable, u: int, symbol: nat, bits: Bits, u': int, bits': Bits) {
    && 0 <= u < |dt.cells| && dt.cells[u].symbol == symbol && dt.cells[u].nbBits <= bits.length
    && dt.cells[u].newState + Top(bits, dt.cells[u].nbBits) == u'
    && Pop(bits, dt.cells[u].nbBits) == bits'
  }

  predicate Holds(dt: DTable, u: int, symbol: nat, leastBits: nat) {
    0 <= u < |dt.cells| && dt.cells[u].symbol == symbol && dt.cells[u].nbBits >= leastBits
  }

  /** The state whose turn it is at position i, and the other one. */
  function Current(c: Coder, i: nat): nat {
    if i % 2 == 0 then c.x1 else c.x2
  }

  function Other(c: Coder, i: nat): nat {
    if i % 2 == 0 then c.x2 else c.x1
  }

  /** The cell of the state that an encoding step leads to. */
  lemma StepCell(ct: CTable, dt: DTable, norm: seq<int>, t: seq<nat>, x: nat, s: nat)
    requires EncoderTable(ct, norm, t) && DecoderTable(dt, norm, t) && dt.tableLog == ct.tableLog
    requires s < |norm| && norm[s] != 0 && EncoderState(ct.tableLog, x)
    ensures var u, n := NextStateOf(ct, StateSlot(ct, x, s)) - |t|, NbBitsOut(ct, x, s);
            0 <= u < |dt.cells| && dt.cells[u].symbol == s && dt.cells[u].nbBits == n && dt.cells[u].newState + Low(x, n) == x - |t|
  {
    DecodeUndoesEncode(ct, dt, norm, t, x, s);
  }

  /** Decoding undoes one encoding step. */
  lemma DecodeOne(ct: CTable, dt: DTable, norm: seq<int>, t: seq<nat>, c': Coder, i: nat, s: nat)
    requires EncoderTable(ct, norm, t) && DecoderTable(dt, norm, t) && dt.tableLog == ct.tableLog
    requires s < |norm| && norm[s] != 0 && s < |ct.symbolTT| && InRange(ct.tableLog, c')
    ensures var c := EncodeAt(ct, c', i, s);
            && Decodes(dt, Current(c, i) - |t|, s, c.bits, Current(c', i) - |t|, c'.bits)
            && Other(c, i) == Other(c', i)
  {
    var x := Current(c', i);
    hide EncoderTable, DecoderTable, Low, EncoderState, NbBitsOut, StateSlot, NextStateOf, Pop, Top, Shl;
    StepCell(ct, dt, norm, t, x, s);
    LowBelow(x, NbBitsOut(ct, x, s));
    var n := NbBitsOut(ct, x, s);
    PopUndoesPush(c'.bits, Low(x, n), n);
  }

  /** Decoding undoes encoding: the state that `Encoded` reaches at position i decodes to src[i] and,
      with the bits on top of the stack, to the coder at position i + 1. */
  lemma DecodeAt(ct: CTable, dt: DTable, norm: seq<int>, t: seq<nat>, src: seq<Byte>, i: nat)
    requires EncoderTable(ct, norm, t) && DecoderTable(dt, norm, t) && dt.tableLog == ct.tableLog
    requires Covered(norm, src) && |src| >= 2 && i < |src| - 2
    ensures Symbols(ct, src)
    ensures var c, c' := Encoded(ct, src, i), Encoded(ct, src, i + 1);
            && Decodes(dt, Current(c, i) - |t|, src[i], c.bits, Current(c', i) - |t|, c'.bits)
            && Other(c, i) == Other(c', i)
  {
    hide Spreads, IsCTable, IsDTable, EncodeAt, InRange, Decodes, Current, Other;
    TableFacts(ct, norm, t, src);
    EncodedInRange(ct, norm, t, src, i + 1);
    DecodeOne(ct, dt, norm, t, Encoded(ct, src, i + 1), i, src[i]);
  }

  /** No symbol owns the whole table. */
  predicate NoFullSymbol(norm: seq<int>, size: nat) {
    forall s :: 0 <= s < |norm| ==> norm[s] < size
  }

  /** The last two symbols sit in the states themselves: no bits are left, and decoding the next
      to last still asks for one unless a symbol owns the whole table. */
  lemma DecodeLast(ct: CTable, dt: DTable, norm: seq<int>, t: seq<nat>, src: seq<Byte>)
    requires EncoderTable(ct, norm, t) && DecoderTable(dt, norm, t) && dt.tableLog == ct.tableLog
    requires Covered(norm, src) && |src| >= 2
    ensures Symbols(ct, src)
    ensures var i := |src| - 2;
            var c := Encoded(ct, src, i);
            && c.bits == EMPTY
            && Holds(dt, Current(c, i) - |t|, src[i], if NoFullSymbol(norm, |t|) then 1 else 0)
            && Holds(dt, Other(c, i) - |t|, src[i + 1], 0)
  {
    var i := |src| - 2;
    LastCell(ct, dt, norm, t, src[i]);
    LastCell(ct, dt, norm, t, src[i + 1]);
  }

  lemma LastCell(ct: CTable, dt: DTable, norm: seq<int>, t: seq<nat>, s: nat)
    requires EncoderTable(ct, norm, t) && DecoderTable(dt, norm, t) && dt.tableLog == ct.tableLog
    requires s < |norm| && norm[s] != 0
    ensures Holds(dt, NextStateOf(ct, InitSlot(ct, s)) - |t|, s, if norm[s] < |t| then 1 else 0)
  {
    InitStateIsSmallest(ct, dt, norm, t, s);
  }

  /** No cell asks for bits. */
  ghost predicate Stuck(dt: DTable) {
    forall u: nat :: u < |dt.cells| ==> dt.cells[u].nbBits == 0
  }

  /** Two different symbols share the table. */
  lemma TwoShares(norm: seq<int>, a: nat, b: nat)
    requires a < b < |norm|
    ensures Share(norm[a]) + Share(norm[b]) <= Start(norm, |norm|)
  {
    StartMonotone(norm, a + 1, b);
    StartMonotone(norm, b + 1, |norm|);
  }

  /** A symbol that owns the whole table leaves the decoder nothing to read. */
  lemma FullTable(dt: DTable, norm: seq<int>, t: seq<nat>)
    requires DecoderTable(dt, norm, t) && !NoFullSymbol(norm, |t|)
    ensures Stuck(dt)
  {
    var s: nat :| s < |norm| && norm[s] >= |t|;
    forall u: nat | u < |dt.cells|
      ensures dt.cells[u].nbBits == 0
    {
      RankBelowShare(norm, t, u);
      if t[u] < s {
        TwoShares(norm, t[u], s);
      } else if s < t[u] {
        TwoShares(norm, s, t[u]);
      }
      assert IsCell(dt.cells[u], NextState(norm, t, u), dt.tableLog);
      FullCell(dt.tableLog, NextState(norm, t, u));
    }
  }

  lemma FullCell(tableLog: nat, next: nat)
    requires next >= Pow2(tableLog)
    ensures next >= 1 && Log2(next) >= tableLog
  {
    if Log2(next) < tableLog {
      Pow2Strict(Log2(next), tableLog);
    }
  }

  /** What a decoder state and its cell promise for any bits that follow. */
  lemma CellInTable(dt: DTable, norm: seq<int>, t: seq<nat>, u: nat)
    requires DecoderTable(dt, norm, t) && u < |t|
    ensures dt.cells[u].symbol < 256 && dt.cells[u].nbBits <= dt.tableLog
    ensures dt.cells[u].newState + Pow2(dt.cells[u].nbBits) <= |t|
    ensures dt.fastMode ==> dt.cells[u].nbBits >= 1
  {
    var cell, next := dt.cells[u], NextState(norm, t, u);
    assert IsCell(cell, next, dt.tableLog);
    StateFromCell(dt.tableLog, next, cell.nbBits, Pow2(cell.nbBits) - 1);
    if dt.fastMode {
      RankBelowShare(norm, t, u);
    }
  }

  /** FSE_initDState */
  method InitDState(bitD: DStream, tableLog: nat) returns (state: nat)
    requires bitD.Valid() && tableLog <= MAX_TABLELOG
    modifies bitD
    ensures bitD.Valid() && state < Pow2(tableLog)
    ensures bitD.Remaining() == old(bitD.Remaining()) - tableLog
    ensures old(bitD.Loaded()) && old(bitD.Remaining()) >= tableLog ==>
              bitD.Loaded() && state == Top(old(bitD.Unread()), tableLog)
              && bitD.Unread() == Pop(old(bitD.Unread()), tableLog)
  {
    state := bitD.ReadBits(tableLog);
    var _ := bitD.Reload();
  }

  /** FSE_decodeSymbol and FSE_decodeSymbolFast */
  method DecodeSymbol(bitD: DStream, dt: DTable, state: nat, fast: bool, ghost norm: seq<int>, ghost t: seq<nat>)
    returns (symbol: Byte, state': nat)
    requires DecoderTable(dt, norm, t) && state < |t| && bitD.Valid() && (fast ==> dt.fastMode)
    modifies bitD`bitsConsumed
    ensures bitD.Valid() && state' < |t|
    ensures symbol == dt.cells[state].symbol
    ensures bitD.bitsConsumed == old(bitD.bitsConsumed) + dt.cells[state].nbBits
    ensures dt.cells[state].nbBits <= dt.tableLog
    ensures bitD.bitsConsumed <= REGISTER ==>
              && state' == dt.cells[state].newState + Top(old(bitD.Unread()), dt.cells[state].nbBits)
              && bitD.Unread() == Pop(old(bitD.Unread()), dt.cells[state].nbBits)
  {
    CellInTable(dt, norm, t, state);
    var cell := dt.cells[state];
    var lowBits;
    if fast {
      lowBits := bitD.ReadBitsFast(cell.nbBits);
    } else {
      lowBits := bitD.ReadBits(cell.nbBits);
    }
    symbol, state' := cell.symbol, cell.newState + lowBits;
  }

  /** The decoder at position op holds the coder's states, the one whose turn it is first. */
  ghost predicate Synced(ct: CTable, size: nat, src: seq<Byte>, op: nat, cur: nat, other: nat, bitD: DStream)
    requires Symbols(ct, src)
    reads bitD
  {
    && op <= |src| - 2 && bitD.Remaining() >= 0
    && Encoded(ct, src, op) == if op % 2 == 0 then Coder(size + cur, size + other, bitD.Unread())
                               else Coder(size + other, size + cur, bitD.Unread())
  }

  /** Tables of one distribution and a source they cover. */
  ghost predicate Matched(ct: CTable, dt: DTable, norm: seq<int>, t: seq<nat>, src: seq<Byte>) {
    && EncoderTable(ct, norm, t) && DecoderTable(dt, norm, t) && dt.tableLog == ct.tableLog
    && Covered(norm, src) && |src| >= 3
  }

  lemma MatchedFacts(ct: CTable, dt: DTable, norm: seq<int>, t: seq<nat>, src: seq<Byte>)
    requires Matched(ct, dt, norm, t, src)
    ensures Symbols(ct, src) && |src| >= 3 && EncoderTable(ct, norm, t) && DecoderTable(dt, norm, t)
    ensures Covered(norm, src)
    ensures 1 <= ct.tableLog == dt.tableLog <= MAX_TABLELOG && |t| == Pow2(ct.tableLog)
  {
  }

  /** The next symbol. Ahead of the last two symbols the decoder stays in step with the coder; at
      the next to last it runs out of bits, and the other state holds the last symbol. */
  method DecodeStep(bitD: DStream, dt: DTable, cur: nat, fast: bool, ghost other: nat, ghost op: nat,
                    ghost ct: CTable, ghost norm: seq<int>, ghost t: seq<nat>, ghost src: seq<Byte>)
    returns (symbol: Byte, cur': nat)
    requires DecoderTable(dt, norm, t) && cur < |t| && bitD.Valid() && (fast ==> dt.fastMode)
    modifies bitD`bitsConsumed
    ensures bitD.Valid() && cur' < |t| && symbol == dt.cells[cur].symbol
    ensures bitD.bitsConsumed <= old(bitD.bitsConsumed) + MAX_TABLELOG
    ensures Stuck(dt) ==> bitD.bitsConsumed == old(bitD.bitsConsumed)
    ensures Matched(ct, dt, norm, t, src) && old(Symbols(ct, src) && Synced(ct, |t|, src, op, cur, other, bitD)) ==>
              && symbol == src[op]
              && (op < |src| - 2 && (old(bitD.bitsConsumed) <= 50 || bitD.ptr == 0) ==>
                    bitD.bitsConsumed <= REGISTER && Synced(ct, |t|, src, op + 1, other, cur', bitD))
              && (op == |src| - 2 && NoFullSymbol(norm, |t|) ==>
                    bitD.bitsConsumed > REGISTER && other < |t| && dt.cells[other].symbol == src[op + 1])
  {
    hide Spreads, IsCTable, IsDTable, NbBitsOut, StateSlot, EncodeAt, Low, Pop, Top, NoFullSymbol;
    label before:
    symbol, cur' := DecodeSymbol(bitD, dt, cur, fast, norm, t);
    DecoderFacts(dt, norm, t);
    if Matched(ct, dt, norm, t, src) && old@before(Symbols(ct, src) && Synced(ct, |t|, src, op, cur, other, bitD)) {
      hide Matched;
      MatchedFacts(ct, dt, norm, t, src);
      if op < |src| - 2 {
        DecodeAt(ct, dt, norm, t, src, op);
      } else {
        DecodeLast(ct, dt, norm, t, src);
      }
    }
  }

  lemma DecoderFacts(dt: DTable, norm: seq<int>, t: seq<nat>)
    requires DecoderTable(dt, norm, t)
    ensures dt.tableLog <= MAX_TABLELOG && |dt.cells| == |t|
  {
  }

  /** A full register still holds more than four symbols. */
  lemma FourMore(ct: CTable, dt: DTable, norm: seq<int>, t: seq<nat>, src: seq<Byte>, op: nat)
    requires Matched(ct, dt, norm, t, src) && op <= |src| - 2
    ensures Symbols(ct, src)
    ensures Encoded(ct, src, op).bits.length >= 57 ==> op + 4 < |src| - 2
  {
    EncodedInRange(ct, norm, t, src, op);
    if op + 4 >= |src| - 2 {
      MulMonotone(|src| - 2 - op, 4, ct.tableLog);
      assert (|src| - 2 - op) * ct.tableLog == ct.tableLog * (|src| - 2 - op);
    }
  }

  /** What has been decoded so far, as long as the input is a block of src. */
  ghost predicate Decoding(good: bool, ct: CTable, size: nat, src: seq<Byte>, op: nat, cur: nat, other: nat,
                           bitD: DStream, out: seq<Byte>)
    reads bitD
  {
    good ==> Symbols(ct, src) && Synced(ct, size, src, op, cur, other, bitD) && op <= |out| && out[..op] == src[..op]
  }

  /** The unrolled body of the main loop: four symbols from one full register. */
  method DecodeFour(bitD: DStream, dt: DTable, s1: nat, s2: nat, fast: bool, dst: array<Byte>, op: nat,
                    ghost good: bool, ghost ct: CTable, ghost norm: seq<int>, ghost t: seq<nat>, ghost src: seq<Byte>)
    returns (state1: nat, state2: nat)
    requires DecoderTable(dt, norm, t) && s1 < |t| && s2 < |t| && bitD.Valid() && (fast ==> dt.fastMode)
    requires bitD.bitsConsumed <= 7 && op + 4 <= dst.Length && op % 2 == 0
    requires good ==> Matched(ct, dt, norm, t, src)
    requires Decoding(good, ct, |t|, src, op, s1, s2, bitD, dst[..])
    modifies bitD`bitsConsumed, dst
    ensures bitD.Valid() && state1 < |t| && state2 < |t|
    ensures Decoding(good, ct, |t|, src, op + 4, state1, state2, bitD, dst[..])
    ensures good || (Stuck(dt) && old(bitD.bitsConsumed) <= REGISTER) ==> bitD.bitsConsumed <= REGISTER
  {
    hide Spreads, IsCTable, IsDTable, Encoded, Matched, Stuck;
    if good {
      FourMore(ct, dt, norm, t, src, op);
    }
    var symbol;
    symbol, state1 := DecodeStep(bitD, dt, s1, fast, s2, op, ct, norm, t, src);
    dst[op] := symbol;
    symbol, state2 := DecodeStep(bitD, dt, s2, fast, state1, op + 1, ct, norm, t, src);
    dst[op + 1] := symbol;
    symbol, state1 := DecodeStep(bitD, dt, state1, fast, state2, op + 2, ct, norm, t, src);
    dst[op + 2] := symbol;
    symbol, state2 := DecodeStep(bitD, dt, state2, fast, state1, op + 3, ct, norm, t, src);
    dst[op + 3] := symbol;
  }

  /** One symbol of the tail, and the last one with it when the stream has overflowed. */
  method DecodeTailSymbol(bitD: DStream, dt: DTable, cur: nat, other: nat, fast: bool, dst: array<Byte>, op: nat,
                          ghost good: bool, ghost ct: CTable, ghost norm: seq<int>, ghost t: seq<nat>, ghost src: seq<Byte>)
    returns (done: bool, cur': nat)
    requires DecoderTable(dt, norm, t) && cur < |t| && other < |t| && bitD.Valid() && (fast ==> dt.fastMode)
    requires op + 2 <= dst.Length
    requires good ==> Matched(ct, dt, norm, t, src) && NoFullSymbol(norm, |t|) && bitD.Loaded()
    requires Decoding(good, ct, |t|, src, op, cur, other, bitD, dst[..])
    modifies bitD, dst
    ensures bitD.Valid() && cur' < |t|
    ensures good && done ==> op + 2 == |src| && dst[..op + 2] == src
    ensures !done ==> Decoding(good, ct, |t|, src, op + 1, other, cur', bitD, dst[..]) && (good ==> bitD.Loaded())
    ensures Stuck(dt) && old(bitD.bitsConsumed) <= REGISTER ==> !done && bitD.bitsConsumed <= REGISTER
  {
    hide Spreads, IsCTable, IsDTable, Encoded, Matched;
    var symbol;
    symbol, cur' := DecodeStep(bitD, dt, cur, fast, other, op, ct, norm, t, src);
    dst[op] := symbol;
    var status := bitD.Reload();
    done := status == Overflow;
    if done {
      var last, _ := DecodeSymbol(bitD, dt, other, fast, norm, t);
      dst[op + 1] := last;
    }
  }

  /** The register value of a flushed state. */
  lemma FlushedState(tableLog: nat, x: nat)
    requires EncoderState(tableLog, x)
    ensures Low(x, tableLog) == x - Pow2(tableLog)
  {
    LowIsMod(x, tableLog);
    DivModUnique(x, 1, x - Pow2(tableLog), Pow2(tableLog));
  }

  /** Reading the two states off the finished stream leaves the coder at position 0. */
  lemma StatesOnTop(ct: CTable, norm: seq<int>, t: seq<nat>, src: seq<Byte>)
    requires EncoderTable(ct, norm, t) && Covered(norm, src) && |src| >= 2
    ensures Symbols(ct, src) && Proper(Block(ct, src)) && Block(ct, src).length >= 2 * ct.tableLog
    ensures var c, b := Encoded(ct, src, 0), Block(ct, src);
            && |t| + Top(b, ct.tableLog) == c.x1
            && |t| + Top(Pop(b, ct.tableLog), ct.tableLog) == c.x2
            && Pop(Pop(b, ct.tableLog), ct.tableLog) == c.bits
  {
    hide Spreads, IsCTable, Low;
    TableFacts(ct, norm, t, src);
    EncodedInRange(ct, norm, t, src, 0);
    var c, n := Encoded(ct, src, 0), ct.tableLog;
    FlushedState(n, c.x1);
    FlushedState(n, c.x2);
    var b := Push(c.bits, Low(c.x2, n), n);
    PushProper(c.bits, Low(c.x2, n), n);
    PushProper(b, Low(c.x1, n), n);
    PopUndoesPush(b, Low(c.x1, n), n);
    PopUndoesPush(c.bits, Low(c.x2, n), n);
  }

  /** Opens the stream and reads the two initial states. */
  method StartDecoding(input: seq<Byte>, dt: DTable, ghost good: bool, ghost ct: CTable, ghost norm: seq<int>,
                       ghost t: seq<nat>, ghost src: seq<Byte>)
    returns (bitD: DStream, state1: nat, state2: nat)
    requires DecoderTable(dt, norm, t) && |input| >= 1 && input[|input| - 1] != 0
    requires good ==> Matched(ct, dt, norm, t, src) && Symbols(ct, src) && IsStream(input, Block(ct, src))
    ensures fresh(bitD) && bitD.Valid() && state1 < |t| && state2 < |t|
    ensures Decoding(good, ct, |t|, src, 0, state1, state2, bitD, [])
    ensures good ==> bitD.Loaded() && bitD.bitsConsumed <= REGISTER
  {
    hide Spreads, IsCTable, IsDTable, Encoded, Matched, Block, Top, Pop, IsStream;
    DecoderSize(dt, norm, t);
    bitD := new DStream(input);
    if good {
      MatchedFacts(ct, dt, norm, t, src);
      StatesOnTop(ct, norm, t, src);
      StreamContent(input, Block(ct, src));
      assert bitD.Unread() == Block(ct, src);
      PopLength(Block(ct, src), dt.tableLog);
    }
    state1 := InitDState(bitD, dt.tableLog);
    state2 := InitDState(bitD, dt.tableLog);
  }

  lemma DecoderSize(dt: DTable, norm: seq<int>, t: seq<nat>)
    requires DecoderTable(dt, norm, t)
    ensures dt.tableLog <= MAX_TABLELOG && |t| == Pow2(dt.tableLog)
  {
  }

  /** The tail loop, which leaves only through the overflow status or a full destination. */
  method DecodeTail(bitD: DStream, dt: DTable, s1: nat, s2: nat, fast: bool, dst: array<Byte>, start: nat,
                    ghost good: bool, ghost ct: CTable, ghost norm: seq<int>, ghost t: seq<nat>, ghost src: seq<Byte>)
    returns (r: Result<nat>)
    requires DecoderTable(dt, norm, t) && s1 < |t| && s2 < |t| && bitD.Valid() && (fast ==> dt.fastMode)
    requires start <= dst.Length
    requires good ==> Matched(ct, dt, norm, t, src) && NoFullSymbol(norm, |t|) && bitD.Loaded()
    requires Decoding(good, ct, |t|, src, start, s1, s2, bitD, dst[..])
    modifies bitD, dst
    ensures r.Ok? ==> 2 <= r.value <= dst.Length
    ensures Stuck(dt) && old(bitD.bitsConsumed) <= REGISTER ==> r == Err("dstSize_tooSmall")
    ensures good ==> if |src| <= dst.Length then r == Ok(|src|) && dst[..|src|] == src
                     else r == Err("dstSize_tooSmall")
  {
    hide Spreads, IsCTable, IsDTable, Encoded, Matched;
    if good {
      MatchedFacts(ct, dt, norm, t, src);
    }
    var state1: nat, state2: nat, op: nat, done := s1, s2, start, false;
    while true
      invariant op <= dst.Length && bitD.Valid() && state1 < |t| && state2 < |t|
      invariant Decoding(good, ct, |t|, src, op, state1, state2, bitD, dst[..])
      invariant good ==> bitD.Loaded()
      invariant Stuck(dt) && old(bitD.bitsConsumed) <= REGISTER ==> bitD.bitsConsumed <= REGISTER
      decreases dst.Length - op
    {
      if op > dst.Length - 2 {
        return Err("dstSize_tooSmall");
      }
      done, state1 := DecodeTailSymbol(bitD, dt, state1, state2, fast, dst, op, good, ct, norm, t, src);
      if done {
        return Ok(op + 2);
      }
      op := op + 1;
      if op > dst.Length - 2 {
        return Err("dstSize_tooSmall");
      }
      done, state2 := DecodeTailSymbol(bitD, dt, state2, state1, fast, dst, op, good, ct, norm, t, src);
      if done {
        return Ok(op + 2);
      }
      op := op + 1;
    }
  }

  /** A reload moves the register, not the place in the stream. */
  method ReloadInStep(bitD: DStream, ghost good: bool, ghost ct: CTable, ghost size: nat, ghost src: seq<Byte>,
                      ghost op: nat,
                      ghost cur: nat, ghost other: nat, ghost out: seq<Byte>) returns (status: Status)
    requires bitD.Valid() && Decoding(good, ct, size, src, op, cur, other, bitD, out)
    requires good ==> bitD.bitsConsumed <= REGISTER
    modifies bitD`bitContainer, bitD`bitsConsumed, bitD`ptr
    ensures bitD.Valid() && Decoding(good, ct, size, src, op, cur, other, bitD, out)
    ensures status == Unfinished ==> bitD.bitsConsumed <= 7
    ensures good ==> bitD.Loaded()
    ensures old(bitD.bitsConsumed) <= REGISTER ==> bitD.bitsConsumed <= REGISTER
  {
    status := bitD.Reload();
  }

  /** The main loop: four symbols for every full register. */
  method DecodeMain(bitD: DStream, dt: DTable, s1: nat, s2: nat, fast: bool, dst: array<Byte>,
                    ghost good: bool, ghost ct: CTable, ghost norm: seq<int>, ghost t: seq<nat>, ghost src: seq<Byte>)
    returns (state1: nat, state2: nat, op: nat)
    requires DecoderTable(dt, norm, t) && s1 < |t| && s2 < |t| && bitD.Valid() && (fast ==> dt.fastMode)
    requires good ==> Matched(ct, dt, norm, t, src) && bitD.bitsConsumed <= REGISTER
    requires Decoding(good, ct, |t|, src, 0, s1, s2, bitD, dst[..])
    modifies bitD, dst
    ensures bitD.Valid() && state1 < |t| && state2 < |t| && op <= dst.Length
    ensures good ==> bitD.Loaded()
    ensures Decoding(good, ct, |t|, src, op, state1, state2, bitD, dst[..])
    ensures Stuck(dt) && old(bitD.bitsConsumed) <= REGISTER ==> bitD.bitsConsumed <= REGISTER
  {
    hide DecoderTable, Encoded, Matched, Stuck, Decoding, DStream.Loaded, DStream.Valid;
    state1, state2, op := s1, s2, 0;
    var status := ReloadInStep(bitD, good, ct, |t|, src, 0, s1, s2, dst[..]);
    while status == Unfinished && op < dst.Length - 3
      invariant op % 2 == 0 && op <= dst.Length && bitD.Valid() && state1 < |t| && state2 < |t|
      invariant status == Unfinished ==> bitD.bitsConsumed <= 7
      invariant Decoding(good, ct, |t|, src, op, state1, state2, bitD, dst[..])
      invariant good ==> bitD.Loaded()
      invariant Stuck(dt) && old(bitD.bitsConsumed) <= REGISTER ==> bitD.bitsConsumed <= REGISTER
      decreases dst.Length - op
    {
      state1, state2 := DecodeFour(bitD, dt, state1, state2, fast, dst, op, good, ct, norm, t, src);
      op := op + 4;
      status := ReloadInStep(bitD, good, ct, |t|, src, op, state1, state2, dst[..]);
    }
  }

  /** FSE_decompress_usingDTable_generic, on any input. When the input is a block of `src`, it comes
      back with exactly `src` if and only if the destination has room for it and no symbol owns the
      whole table; otherwise it reports that the destination is too small. */
  method DecompressGeneric(dst: array<Byte>, input: seq<Byte>, dt: DTable, fast: bool,
                           ghost ct: CTable, ghost norm: seq<int>, ghost t: seq<nat>, ghost src: seq<Byte>)
    returns (r: Result<nat>)
    requires DecoderTable(dt, norm, t) && (fast ==> dt.fastMode)
    modifies dst
    ensures r.Ok? ==> 2 <= r.value <= dst.Length
    ensures Matched(ct, dt, norm, t, src) && Symbols(ct, src) && IsStream(input, Block(ct, src)) ==>
              if |src| <= dst.Length && NoFullSymbol(norm, |t|) then r == Ok(|src|) && dst[..|src|] == src
              else r == Err("dstSize_tooSmall")
  {
    ghost var block := Matched(ct, dt, norm, t, src) && Symbols(ct, src) && IsStream(input, Block(ct, src));
    ghost var good := block && NoFullSymbol(norm, |t|);
    if !NoFullSymbol(norm, |t|) {
      FullTable(dt, norm, t);
    }
    hide Stuck, NoFullSymbol, Spreads, IsCTable, IsDTable, Encoded, Matched, Block, IsStream;
    if block {
      MatchedFacts(ct, dt, norm, t, src);
      StatesOnTop(ct, norm, t, src);
      StreamContent(input, Block(ct, src));
    }
    if |input| < 1 {
      return Err("srcSize_wrong");
    }
    if input[|input| - 1] == 0 {
      return Err(if |input| >= 8 then "GENERIC" else "corruption_detected");
    }
    var bitD, state1: nat, state2: nat := StartDecoding(input, dt, block, ct, norm, t, src);
    var op: nat;
    state1, state2, op := DecodeMain(bitD, dt, state1, state2, fast, dst, good, ct, norm, t, src);
    r := DecodeTail(bitD, dt, state1, state2, fast, dst, op, good, ct, norm, t, src);
  }

  /** FSE_decompress_usingDTable, which picks the mode the table was built for. */
  method DecompressUsingDTable(dst: array<Byte>, input: seq<Byte>, dt: DTable,
                               ghost ct: CTable, ghost norm: seq<int>, ghost t: seq<nat>, ghost src: seq<Byte>)
    returns (r: Result<nat>)
    requires DecoderTable(dt, norm, t)
    modifies dst
    ensures r.Ok? ==> 2 <= r.value <= dst.Length
    ensures Matched(ct, dt, norm, t, src) && Symbols(ct, src) && IsStream(input, Block(ct, src)) ==>
              if |src| <= dst.Length && NoFullSymbol(norm, |t|) then r == Ok(|src|) && dst[..|src|] == src
              else r == Err("dstSize_tooSmall")
  {
    r := DecompressGeneric(dst, input, dt, dt.fastMode, ct, norm, t, src);
  }

  /** One symbol that owns all 32 cells, and a source of three. */
  method FullSymbolLost() returns (size: nat, r: Result<nat>)
    ensures size != 0 && r == Err("dstSize_tooSmall")
  {
    hide Cells, IsCTable, IsDTable, Encoded, Block, IsStream, NoRoom, Symbols, Covered, NoFullSymbol;
    hide Normalized, Counts, Start;
    var norm, src: seq<Byte> := [32], [0, 0, 0];
    OneSymbol(norm, src, 5);
    OneLap(norm, Pow2(5));
    var ct := BuildCTable(norm, 5);
    var dt := BuildDTable(norm, 5);
    size, r := LoseBlock(ct.value, dt.value, norm, Cells(norm, 5), src);
  }

  /** With a symbol that owns the whole table no source can be given back. */
  method LoseBlock(ct: CTable, dt: DTable, ghost norm: seq<int>, ghost t: seq<nat>, src: seq<Byte>)
    returns (size: nat, r: Result<nat>)
    requires Matched(ct, dt, norm, t, src) && !NoFullSymbol(norm, |t|) && |src| >= 3
    ensures size != 0 && r == Err("dstSize_tooSmall")
  {
    var dst := new Byte[|src| * ct.tableLog / 8 + 10](_ => 0);
    var back := new Byte[|src|](_ => 0);
    MatchedFacts(ct, dt, norm, t, src);
    hide Encoded, Block, IsStream, NoRoom, Symbols, NoFullSymbol, EncoderTable, DecoderTable;
    RoomForBits(ct, norm, t, src, dst.Length);
    var c := CompressUsingCTable(dst, src, ct, norm, t);
    size := c.value;
    r := DecompressUsingDTable(back, dst[..size], dt, ct, norm, t, src);
  }

  lemma OneSymbol(norm: seq<int>, src: seq<Byte>, tableLog: nat)
    requires norm == [32] && src == [0, 0, 0] && tableLog == 5
    ensures Normalized(norm, tableLog) && !NoFullSymbol(norm, Pow2(tableLog)) && Covered(norm, src)
    ensures Counts(norm) && Start(norm, |norm|) == Pow2(tableLog)
  {
    assert Start(norm, 1) == Start(norm, 0) + 32;
    assert Pow2(5) == 32;
  }
}
