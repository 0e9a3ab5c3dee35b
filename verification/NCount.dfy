/** The header that carries the normalized counts: shrinking truncated binary codes and run codes for
    zeros, written 16 bits at a time and read back through a 32-bit window. */
module NCount {
  import opened Powers
  import opened Wrappers
  import opened Bytes
  import opened Spread
  import opened BitStream

  const TABLELOG_ABSOLUTE_MAX: nat := 15

  // ----- the format

  /** `remaining`: one more than the shares of the symbols from i on. */
  function Remaining(norm: seq<int>, i: nat): (r: nat)
    requires i <= |norm|
    ensures r >= 1
    decreases |norm| - i
  {
    if i == |norm| then 1 else Share(norm[i]) + Remaining(norm, i + 1)
  }

  function NextNonZero(norm: seq<int>, i: nat): (j: nat)
    requires i <= |norm|
    ensures i <= j <= |norm| && Remaining(norm, j) == Remaining(norm, i)
    ensures forall k :: i <= k < j ==> norm[k] == 0
    ensures j < |norm| ==> norm[j] != 0
    ensures Remaining(norm, i) > 1 ==> j < |norm|
    decreases |norm| - i
  {
    if i < |norm| && norm[i] == 0 then NextNonZero(norm, i + 1) else i
  }

  /** A field in front of what follows. */
  function Put(field: nat, n: nat, rest: Bits): Bits {
    Bits(field + Shl(rest.value, n), n + rest.length)
  }

  /** A run of z zeros, then what follows. */
  function Run(z: nat, rest: Bits): Bits {
    if z >= 24 then Put(0xFFFF, 16, Run(z - 24, rest))
    else if z >= 3 then Put(3, 2, Run(z - 3, rest))
    else Put(z, 2, rest)
  }

  /** How many of the short codes a count field has. */
  function ShortCodes(remaining: nat): int
    requires remaining >= 1
  {
    2 * Pow2(Log2(remaining)) - 1 - remaining
  }

  /** A count as a field and its width: the smaller half of the codes is one bit shorter. */
  function Code(count: int, remaining: nat): (int, nat)
    requires remaining >= 1
  {
    var threshold, max, c := Pow2(Log2(remaining)), ShortCodes(remaining), count + 1;
    if c < max then (c, Log2(remaining))
    else if c < threshold then (c, Log2(remaining) + 1)
    else (c + max, Log2(remaining) + 1)
  }

  /** The field of a count. */
  function Field(count: int, remaining: nat): nat
    requires remaining >= 1
  {
    if Code(count, remaining).0 < 0 then 0 else Code(count, remaining).0
  }

  predicate AfterZero(norm: seq<int>, i: nat)
    requires i <= |norm|
  {
    i > 0 && norm[i - 1] == 0
  }

  /** The header from symbol i on. */
  function Header(norm: seq<int>, i: nat): Bits
    requires i <= |norm|
    decreases |norm| - i
  {
    if Remaining(norm, i) <= 1 then EMPTY
    else
      var j := if AfterZero(norm, i) then NextNonZero(norm, i) else i;
      var rest := Put(Field(norm[j], Remaining(norm, j)), Code(norm[j], Remaining(norm, j)).1, Header(norm, j + 1));
      if AfterZero(norm, i) then Run(j - i, rest) else rest
  }

  function Whole(norm: seq<int>, tableLog: nat): Bits
    requires tableLog >= MIN_TABLELOG
  {
    Put(tableLog - MIN_TABLELOG, 4, Header(norm, 0))
  }

  ghost predicate IsHeader(bytes: seq<Byte>, norm: seq<int>, tableLog: nat)
    requires tableLog >= MIN_TABLELOG
  {
    && |bytes| == (Whole(norm, tableLog).length + 7) / 8
    && LE(bytes) == Whole(norm, tableLog).value
  }

  // ----- the codes

  lemma {:induction false} RemainingIsRest(norm: seq<int>, i: nat)
    requires Counts(norm) && i <= |norm|
    ensures Start(norm, i) + Remaining(norm, i) == Start(norm, |norm|) + 1
    decreases |norm| - i
  {
    if i < |norm| {
      RemainingIsRest(norm, i + 1);
    }
  }

  /** Every count that fits has a code, and the code gives the count back. */
  lemma CodeDecodes(count: int, remaining: nat)
    requires remaining >= 2 && count >= -1 && Share(count) < remaining
    ensures var threshold, max, n := Pow2(Log2(remaining)), ShortCodes(remaining), Log2(remaining);
            var (field, width) := Code(count, remaining);
            && 0 <= max < threshold && 0 <= field < Pow2(width) && field == Field(count, remaining)
            && (width == n || width == n + 1)
            && (width == n ==> field < max && field == count + 1)
            && (width == n + 1 ==> max <= field % threshold
                                   && count + 1 == if field >= threshold then field - max else field)
  {
    var threshold, max, c := Pow2(Log2(remaining)), ShortCodes(remaining), count + 1;
    if c >= threshold {
      DivModUnique(c + max, 1, c + max - threshold, threshold);
    } else if c >= max {
      DivModUnique(c, 0, c, threshold);
    }
  }

  /** What a reader makes of the low bits of the stream, given how much remains. */
  function Decoded(x: nat, remaining: nat): (int, nat)
    requires remaining >= 1
  {
    var n, threshold, max := Log2(remaining), Pow2(Log2(remaining)), ShortCodes(remaining);
    if Low(x, n) < max then (Low(x, n) - 1, n)
    else
      var v := Low(x, n + 1);
      ((if v >= threshold then v - max else v) - 1, n + 1)
  }

  lemma LowStep(x: nat, n: nat)
    ensures Low(Low(x, n + 1), n) == Low(x, n)
    ensures Low(x, n + 1) % Pow2(n) == Low(x, n)
  {
    LowLow(x, n + 1, n);
    LowIsMod(Low(x, n + 1), n);
  }

  /** Reading the field of a count gives the count and its width, whatever follows. */
  lemma DecodedIsCount(x: nat, count: int, remaining: nat)
    requires remaining >= 2 && count >= -1 && Share(count) < remaining
    requires Low(x, Code(count, remaining).1) == Field(count, remaining)
    ensures Decoded(x, remaining) == (count, Code(count, remaining).1)
  {
    CodeDecodes(count, remaining);
    LowStep(x, Log2(remaining));
  }

  /** Whatever is read leaves at least 1. */
  lemma DecodedFits(x: nat, remaining: nat)
    requires remaining >= 2
    ensures var (count, width) := Decoded(x, remaining);
            && -1 <= count && Share(count) < remaining
            && width <= Log2(remaining) + 1
  {
    LowBelow(x, Log2(remaining) + 1);
    LowBelow(x, Log2(remaining));
  }

  // ----- writing

  const U32: nat := 0x1_0000_0000

  /** What follows, put behind what has been written. */
  function Append(c: Bits, h: Bits): Bits {
    Bits(c.value + Shl(h.value, c.length), c.length + h.length)
  }

  lemma AppendPut(c: Bits, field: nat, n: nat, rest: Bits)
    ensures Append(c, Put(field, n, rest)) == Append(Push(c, field, n), rest)
  {
    ShlAdd(field, Shl(rest.value, n), c.length);
    ShlShl(rest.value, n, c.length);
  }

  /** The bytes written and the bits in the register are the content. */
  ghost predicate Written(out: seq<Byte>, bitStream: nat, bitCount: nat, c: Bits) {
    && c.value == LE(out) + Shl(bitStream, 8 * |out|) && c.length == 8 * |out| + bitCount
    && bitStream < Pow2(bitCount)
  }

  /** `bitStream += field << bitCount` on 32 bits */
  function Add32(bitStream: nat, field: nat, bitCount: nat): nat {
    (bitStream + Shl(field, bitCount)) % U32
  }

  lemma U32IsPower()
    ensures Pow2(32) == U32
  {
    assert Pow2(8) == 256;
    hide Pow2;
    Pow2Add(8, 8);
    Pow2Add(16, 16);
  }

  lemma AddWritten(out: seq<Byte>, bitStream: nat, bitCount: nat, c: Bits, field: nat, n: nat)
    requires Written(out, bitStream, bitCount, c) && field < Pow2(n) && bitCount + n <= 32
    ensures Written(out, Add32(bitStream, field, bitCount), bitCount + n, Push(c, field, n))
  {
    hide Pow2;
    U32IsPower();
    ShlBelow(field, n, bitCount);
    Pow2Monotone(bitCount + n, 32);
    DivModUnique(bitStream + Shl(field, bitCount), 0, bitStream + Shl(field, bitCount), U32);
    ShlAdd(bitStream, Shl(field, bitCount), 8 * |out|);
    ShlShl(field, bitCount, 8 * |out|);
  }

  function TwoBytes(bitStream: nat): (b: seq<Byte>)
    ensures |b| == 2
  {
    [bitStream % 256, (bitStream / 256) % 256]
  }

  lemma TwoBytesValue(bitStream: nat)
    ensures LE(TwoBytes(bitStream)) + Shl(Shr(bitStream, 16), 16) == bitStream
    ensures bitStream < 65536 ==> LE(TwoBytes(bitStream)) == bitStream
    ensures bitStream < 256 ==> LE(TwoBytes(bitStream)[..1]) == bitStream
  {
    var b := TwoBytes(bitStream);
    assert b[1..] == [b[1]] && b[1..][1..] == [] && b[..1] == [b[0]];
    LEOne(b[1]);
    LEOne(b[0]);
    ShrShr(bitStream, 8, 8);
    ShrIsDiv(bitStream, 16);
    ShlIsTimes(Shr(bitStream, 16), 16);
    SixteenBits(bitStream);
  }

  lemma SixteenBits(x: nat)
    ensures Pow2(16) == 65536
    ensures x == x % 256 + 256 * ((x / 256) % 256) + 65536 * (x / 65536)
  {
    assert Pow2(8) == 256;
    Pow2Add(8, 8);
    DivMod(x, 256);
    DivMod(x / 256, 256);
    DivSplit(x, 256, 256);
  }

  lemma FlushWritten(out: seq<Byte>, bitStream: nat, bitCount: nat, c: Bits)
    requires Written(out, bitStream, bitCount, c) && bitCount >= 16
    ensures Written(out + TwoBytes(bitStream), Shr(bitStream, 16), bitCount - 16, c)
  {
    hide LE, Shl, Shr, TwoBytes, Pow2;
    var b, rest, k := TwoBytes(bitStream), Shr(bitStream, 16), 8 * |out|;
    TwoBytesValue(bitStream);
    ShrSmall(bitStream, bitCount - 16, 16);
    LEParts(out + b, out, b, k);
    SplitHigh(LE(b), rest, bitStream, k);
    assert |out + b| == |out| + 2;
  }

  lemma SplitHigh(low: nat, high: nat, x: nat, k: nat)
    requires low + Shl(high, 16) == x
    ensures Shl(x, k) == Shl(low, k) + Shl(high, k + 16)
  {
    ShlAdd(low, Shl(high, 16), k);
    ShlShl(high, 16, k);
  }

  /** What a step of the writer keeps: the bits still to come complete the header. */
  ghost predicate Ahead(out: seq<Byte>, bitStream: nat, bitCount: nat, rest: Bits, whole: Bits) {
    exists c :: Written(out, bitStream, bitCount, c) && Append(c, rest) == whole
  }

  lemma FieldAhead(out: seq<Byte>, bitStream: nat, bitCount: nat, field: nat, n: nat, rest: Bits, whole: Bits)
    requires Ahead(out, bitStream, bitCount, Put(field, n, rest), whole) && field < Pow2(n) && bitCount + n <= 32
    ensures Ahead(out, Add32(bitStream, field, bitCount), bitCount + n, rest, whole)
  {
    var c :| Written(out, bitStream, bitCount, c) && Append(c, Put(field, n, rest)) == whole;
    AddWritten(out, bitStream, bitCount, c, field, n);
    AppendPut(c, field, n, rest);
  }

  lemma FlushAhead(out: seq<Byte>, bitStream: nat, bitCount: nat, rest: Bits, whole: Bits)
    requires Ahead(out, bitStream, bitCount, rest, whole) && bitCount >= 16
    ensures Ahead(out + TwoBytes(bitStream), Shr(bitStream, 16), bitCount - 16, rest, whole)
  {
    var c :| Written(out, bitStream, bitCount, c) && Append(c, rest) == whole;
    FlushWritten(out, bitStream, bitCount, c);
  }

  /** The writer's register and output, or the error of a buffer that is too small. */
  datatype Output = Output(out: seq<Byte>, bitStream: nat, bitCount: nat)

  const TOO_SMALL := "dstSize_tooSmall"

  /** The unchecked writer does not report a buffer that is too small. */
  function Failure(safe: bool): string {
    if safe then PAST_END else TOO_SMALL
  }

  /** The bytes the writer touches: it stores two at a time, the last two even when only one of them counts. */
  function Touched(whole: Bits): nat {
    2 * ((whole.length + 15) / 16)
  }

  /** The output consists of pairs of bytes, and there is always something left in the register. */
  predicate InPairs(o: Output) {
    |o.out| % 2 == 0 && o.bitCount >= 1
  }

  lemma TooFar(o: Output, rest: Bits, whole: Bits, bufferSize: nat)
    requires Ahead(o.out, o.bitStream, o.bitCount, rest, whole) && |o.out| % 2 == 0 && o.bitCount >= 1
    ensures |o.out| + 2 > bufferSize ==> Touched(whole) > bufferSize
  {
    hide LE, Shl, Pow2;
    var c :| Written(o.out, o.bitStream, o.bitCount, c) && Append(c, rest) == whole;
    HalfOf(|o.out|, whole.length);
  }

  lemma HalfOf(n: nat, length: nat)
    requires n % 2 == 0 && length >= 8 * n + 1
    ensures 2 * ((length + 15) / 16) >= n + 2
    ensures length <= 8 * n + 16 ==> 2 * ((length + 15) / 16) == n + 2
  {
  }

  /** Writes 16 bits out. Only the checked writer looks whether there is room for them. */
  method WriteOut(o: Output, bufferSize: nat, safe: bool, ghost rest: Bits,
                  ghost whole: Bits) returns (r: Result<Output>)
    requires Ahead(o.out, o.bitStream, o.bitCount, rest, whole) && o.bitCount >= 17 && InPairs(o)
    ensures r.Err? <==> |o.out| + 2 > bufferSize
    ensures r.Err? ==> r.error == Failure(safe) && Touched(whole) > bufferSize
    ensures r.Ok? ==> Ahead(r.value.out, r.value.bitStream, r.value.bitCount, rest, whole)
                      && r.value.bitCount == o.bitCount - 16 && InPairs(r.value)
  {
    TooFar(o, rest, whole, bufferSize);
    if |o.out| + 2 > bufferSize {
      return Err(Failure(safe));
    }
    FlushAhead(o.out, o.bitStream, o.bitCount, rest, whole);
    r := Ok(Output(o.out + TwoBytes(o.bitStream), Shr(o.bitStream, 16), o.bitCount - 16));
  }

  /** A run of zeros. */
  method WriteRun(o: Output, zeros: nat, bufferSize: nat, safe: bool, ghost rest: Bits, ghost whole: Bits)
    returns (r: Result<Output>)
    requires Ahead(o.out, o.bitStream, o.bitCount, Run(zeros, rest), whole) && o.bitCount <= 16 && InPairs(o)
    ensures r.Err? ==> r.error == Failure(safe) && Touched(whole) > bufferSize
    ensures r.Ok? ==> Ahead(r.value.out, r.value.bitStream, r.value.bitCount, rest, whole)
                      && r.value.bitCount <= 16 && InPairs(r.value)
  {
    hide Ahead, Add32, Shr, Touched;
    SmallPowers();
    var p, z := o, zeros;
    while z >= 24
      invariant Ahead(p.out, p.bitStream, p.bitCount, Run(z, rest), whole) && p.bitCount <= 16 && InPairs(p)
    {
      FieldAhead(p.out, p.bitStream, p.bitCount, 0xFFFF, 16, Run(z - 24, rest), whole);
      var q := WriteOut(Output(p.out, Add32(p.bitStream, 0xFFFF, p.bitCount), p.bitCount + 16), bufferSize, safe,
                        Run(z - 24, rest), whole);
      if q.Err? {
        return q;
      }
      p, z := q.value, z - 24;
    }
    while z >= 3
      invariant z < 24 && Ahead(p.out, p.bitStream, p.bitCount, Run(z, rest), whole) && InPairs(p)
      invariant p.bitCount + 2 * (z / 3) <= 30
    {
      FieldAhead(p.out, p.bitStream, p.bitCount, 3, 2, Run(z - 3, rest), whole);
      p, z := Output(p.out, Add32(p.bitStream, 3, p.bitCount), p.bitCount + 2), z - 3;
    }
    FieldAhead(p.out, p.bitStream, p.bitCount, z, 2, rest, whole);
    p := Output(p.out, Add32(p.bitStream, z, p.bitCount), p.bitCount + 2);
    if p.bitCount > 16 {
      r := WriteOut(p, bufferSize, safe, rest, whole);
    } else {
      r := Ok(p);
    }
  }

  lemma SmallPowers()
    ensures Pow2(2) == 4 && Pow2(16) == 65536
  {
    SixteenBits(0);
  }

  /** `while (remaining<threshold) { nbBits--; threshold>>=1; }` */
  method Shrink(remaining: nat, threshold: nat, nbBits: nat) returns (threshold': nat, nbBits': nat)
    requires remaining >= 1 && nbBits >= 1 && threshold == Pow2(nbBits - 1) && remaining < 2 * threshold
    ensures threshold' == Pow2(Log2(remaining)) && nbBits' == Log2(remaining) + 1
  {
    threshold', nbBits' := threshold, nbBits;
    while remaining < threshold'
      invariant nbBits' >= 1 && threshold' == Pow2(nbBits' - 1) && remaining < 2 * threshold'
    {
      nbBits', threshold' := nbBits' - 1, threshold' / 2;
    }
    Log2Unique(remaining, nbBits' - 1);
  }

  /** The count of one symbol. */
  method WriteCount(o: Output, count: int, remaining: nat, threshold: nat, nbBits: nat, bufferSize: nat, safe: bool,
                    ghost rest: Bits, ghost whole: Bits)
    returns (r: Result<Output>)
    requires remaining >= 2 && count >= -1 && Share(count) < remaining
    requires threshold == Pow2(Log2(remaining)) && nbBits == Log2(remaining) + 1 <= 16 && o.bitCount <= 16
    requires Ahead(o.out, o.bitStream, o.bitCount, Put(Field(count, remaining), Code(count, remaining).1, rest), whole)
    requires InPairs(o)
    ensures r.Err? ==> r.error == Failure(safe) && Touched(whole) > bufferSize
    ensures r.Ok? ==> Ahead(r.value.out, r.value.bitStream, r.value.bitCount, rest, whole)
                      && r.value.bitCount <= 16 && InPairs(r.value)
  {
    hide Ahead, Add32, Shr, Put, Touched, Pow2, Log2, Field;
    CodeDecodes(count, remaining);
    var max := (2 * threshold - 1) - remaining;
    var field := count + 1;
    if field >= threshold {
      field := field + max;
    }
    var width := nbBits - if field < max then 1 else 0;
    FieldAhead(o.out, o.bitStream, o.bitCount, field, width, rest, whole);
    var p := Output(o.out, Add32(o.bitStream, field, o.bitCount), o.bitCount + width);
    if p.bitCount > 16 {
      r := WriteOut(p, bufferSize, safe, rest, whole);
    } else {
      r := Ok(p);
    }
  }

  lemma LastPair(o: Output, whole: Bits)
    requires Ahead(o.out, o.bitStream, o.bitCount, EMPTY, whole) && o.bitCount <= 16 && InPairs(o)
    ensures Touched(whole) == |o.out| + 2
  {
    hide LE, Shl, Pow2;
    var c :| Written(o.out, o.bitStream, o.bitCount, c) && Append(c, EMPTY) == whole;
    HalfOf(|o.out|, whole.length);
  }

  /** The last bytes. */
  lemma LastBytes(o: Output, whole: Bits)
    requires Ahead(o.out, o.bitStream, o.bitCount, EMPTY, whole) && o.bitCount <= 16
    ensures var bytes := o.out + TwoBytes(o.bitStream)[..(o.bitCount + 7) / 8];
            |bytes| == (whole.length + 7) / 8 && LE(bytes) == whole.value
  {
    var c :| Written(o.out, o.bitStream, o.bitCount, c) && Append(c, EMPTY) == whole;
    var last := TwoBytes(o.bitStream)[..(o.bitCount + 7) / 8];
    LEParts(o.out + last, o.out, last, 8 * |o.out|);
    ShlIsTimes(0, c.length);
    TwoBytesValue(o.bitStream);
    Pow2Monotone(o.bitCount, 16);
    SixteenBits(0);
    if o.bitCount == 0 {
    } else if o.bitCount <= 8 {
      Pow2Monotone(o.bitCount, 8);
      assert Pow2(8) == 256;
    } else {
      assert last == TwoBytes(o.bitStream);
    }
  }

  /** `FSE_NCountWriteBound` */
  function WriteBound(maxSymbolValue: nat, tableLog: nat): nat {
    if maxSymbolValue > 0 then ((maxSymbolValue + 1) * tableLog) / 8 + 3 else 512
  }

  /** The writer's loop variables before symbol i. */
  ghost predicate Before(norm: seq<int>, i: nat, o: Output, remaining: nat, previous0: bool, whole: Bits)
    requires i <= |norm|
  {
    && Ahead(o.out, o.bitStream, o.bitCount, Header(norm, i), whole) && o.bitCount <= 16 && InPairs(o)
    && remaining == Remaining(norm, i) && (previous0 <==> AfterZero(norm, i))
  }

  lemma HeaderAt(norm: seq<int>, i: nat)
    requires i <= |norm|
    ensures Remaining(norm, i) <= 1 ==> Header(norm, i) == EMPTY
    ensures Remaining(norm, i) > 1 ==>
              var j := if AfterZero(norm, i) then NextNonZero(norm, i) else i;
              && j < |norm| && Remaining(norm, j) == Remaining(norm, i)
              && Remaining(norm, j) == Share(norm[j]) + Remaining(norm, j + 1)
              && var rest := Put(Field(norm[j], Remaining(norm, j)), Code(norm[j], Remaining(norm, j)).1, Header(norm, j + 1));
                 Header(norm, i) == if AfterZero(norm, i) then Run(j - i, rest) else rest
  {
  }

  /** One round of the loop: the zeros before the next symbol, and the symbol. */
  method WriteSymbol(norm: seq<int>, charnum: nat, o: Output, remaining: nat, threshold: nat, nbBits: nat,
                     previous0: bool,
                     bufferSize: nat, safe: bool, ghost whole: Bits)
    returns (r: Result<Output>, charnum': nat, remaining': nat, threshold': nat, nbBits': nat, previous0': bool)
    requires Counts(norm) && charnum <= |norm| && Before(norm, charnum, o, remaining, previous0, whole)
    requires remaining > 1 && threshold == Pow2(Log2(remaining)) && nbBits == Log2(remaining) + 1 <= 16
    ensures r.Err? ==> r.error == Failure(safe) && Touched(whole) > bufferSize
    ensures r.Ok? ==> charnum < charnum' <= |norm| && Before(norm, charnum', r.value, remaining', previous0', whole)
    ensures r.Ok? ==> remaining' >= 1 && threshold' == Pow2(Log2(remaining')) && nbBits' == Log2(remaining') + 1 <= 16
  {
    hide Ahead, Header, Put, Run, Field, Code, Remaining, Pow2, Counts, Log2, Touched;
    HeaderAt(norm, charnum);
    charnum', threshold', nbBits', previous0' := charnum, threshold, nbBits, previous0;
    remaining' := remaining;
    r := Ok(o);
    if previous0 {
      charnum' := SkipZeros(norm, charnum);
      ghost var rest := Put(Field(norm[charnum'], remaining), Code(norm[charnum'], remaining).1, Header(norm, charnum' + 1));
      r := WriteRun(o, charnum' - charnum, bufferSize, safe, rest, whole);
      if r.Err? {
        return;
      }
    }
    CountBounds(norm, charnum');
    var count := norm[charnum'];
    r := WriteCount(r.value, count, remaining, threshold, nbBits, bufferSize, safe, Header(norm, charnum' + 1), whole);
    if r.Err? {
      return;
    }
    charnum', remaining', previous0' := charnum' + 1, remaining - Share(count), count == 0;
    LogsFall(remaining', remaining);
    threshold', nbBits' := Shrink(remaining', threshold, nbBits);
  }

  /** FSE_writeNCount_generic: the bytes are the header of the distribution, if and only if the buffer holds
      the bytes that are touched; otherwise the checked writer reports it, and the unchecked one stores past
      the end. */
  method WriteGeneric(norm: seq<int>, tableLog: nat, bufferSize: nat, safe: bool) returns (r: Result<seq<Byte>>)
    requires Normalized(norm, tableLog)
    ensures r.Ok? <==> Touched(Whole(norm, tableLog)) <= bufferSize
    ensures r.Err? ==> r.error == Failure(safe)
    ensures r.Ok? ==> IsHeader(r.value, norm, tableLog)
  {
    hide Ahead, Header, Remaining, Pow2, Counts, Log2, Touched;
    ghost var whole := Whole(norm, tableLog);
    StartAhead(norm, tableLog);
    StartLog(tableLog);
    var o := Ok(Output([], tableLog - MIN_TABLELOG, 4));
    var remaining: nat, threshold: nat, nbBits: nat := Pow2(tableLog) + 1, Pow2(tableLog), tableLog + 1;
    var charnum: nat, previous0 := 0, false;
    while remaining > 1
      invariant o.Ok? && charnum <= |norm| && Before(norm, charnum, o.value, remaining, previous0, whole)
      invariant remaining >= 1 && threshold == Pow2(Log2(remaining)) && nbBits == Log2(remaining) + 1 <= 16
      decreases |norm| - charnum
    {
      o, charnum, remaining, threshold, nbBits, previous0 :=
        WriteSymbol(norm, charnum, o.value, remaining, threshold, nbBits, previous0, bufferSize, safe, whole);
      if o.Err? {
        return Err(o.error);
      }
    }
    HeaderAt(norm, charnum);
    var last := o.value;
    LastPair(last, whole);
    if |last.out| + 2 > bufferSize {
      return Err(Failure(safe));
    }
    LastBytes(last, whole);
    r := Ok(last.out + TwoBytes(last.bitStream)[..(last.bitCount + 7) / 8]);
  }

  method SkipZeros(norm: seq<int>, start: nat) returns (charnum: nat)
    requires start <= |norm| && Remaining(norm, start) > 1
    ensures charnum == NextNonZero(norm, start)
  {
    charnum := start;
    while norm[charnum] == 0
      invariant start <= charnum < |norm| && NextNonZero(norm, charnum) == NextNonZero(norm, start)
      invariant Remaining(norm, charnum) == Remaining(norm, start)
      decreases |norm| - charnum
    {
      charnum := charnum + 1;
    }
  }

  lemma StartAhead(norm: seq<int>, tableLog: nat)
    requires Normalized(norm, tableLog)
    ensures Ahead([], tableLog - MIN_TABLELOG, 4, Header(norm, 0), Whole(norm, tableLog))
    ensures Remaining(norm, 0) == Pow2(tableLog) + 1
  {
    RemainingIsRest(norm, 0);
    ShlIsTimes(tableLog - MIN_TABLELOG, 0);
    assert Pow2(4) == 16;
    var c := Bits(tableLog - MIN_TABLELOG, 4);
    assert Written([], tableLog - MIN_TABLELOG, 4, c);
    assert Append(c, Header(norm, 0)) == Whole(norm, tableLog);
  }

  lemma StartLog(tableLog: nat)
    requires 1 <= tableLog <= 15
    ensures Log2(Pow2(tableLog) + 1) == tableLog
  {
    hide Pow2, Log2;
    Pow2Exceeds(tableLog);
    Log2Unique(Pow2(tableLog) + 1, tableLog);
  }

  lemma CountBounds(norm: seq<int>, i: nat)
    requires Counts(norm) && i < |norm|
    ensures norm[i] >= -1 && Share(norm[i]) < Remaining(norm, i)
  {
  }

  lemma LogsFall(a: nat, b: nat)
    requires 1 <= a <= b
    ensures a < 2 * Pow2(Log2(b)) && Log2(a) <= Log2(b)
  {
    if Log2(a) > Log2(b) {
      Pow2Strict(Log2(b), Log2(a));
    }
  }

  /** FSE_writeNCount */
  method WriteNCount(norm: seq<int>, tableLog: nat, bufferSize: nat) returns (r: Result<seq<Byte>>)
    requires Counts(norm) && Start(norm, |norm|) == Pow2(tableLog)
    ensures tableLog > 14 ==> r == Err("tableLog_tooLarge")
    ensures tableLog < 5 ==> r == Err("GENERIC")
    ensures 5 <= tableLog <= 14 ==>
              && (r.Ok? <==> Touched(Whole(norm, tableLog)) <= bufferSize)
              && (r.Ok? ==> IsHeader(r.value, norm, tableLog))
              && var bound := if |norm| > 1 then |norm| * tableLog / 8 + 3 else 512;
                 r.Err? ==> r.error == if bufferSize >= bound then PAST_END else TOO_SMALL
  {
    hide Touched, Whole;
    if tableLog > MAX_TABLELOG {
      return Err("tableLog_tooLarge");
    }
    if tableLog < MIN_TABLELOG {
      return Err("GENERIC");
    }
    r := WriteGeneric(norm, tableLog, bufferSize, bufferSize >= WriteBound(|norm| - 1, tableLog));
  }

  /** What a caller can count on: no symbol takes more than tableLog + 3 bits of the header. */
  lemma {:induction false} HeaderBound(norm: seq<int>, i: nat, tableLog: nat)
    requires i <= |norm| && Remaining(norm, i) <= Pow2(tableLog) + 1 && tableLog >= 1
    ensures Header(norm, i).length <= (|norm| - i) * (tableLog + 3)
    decreases |norm| - i
  {
    hide Header, Field, Pow2, Code, Put, Run, Share, Log2;
    HeaderAt(norm, i);
    if Remaining(norm, i) > 1 {
      var j := if AfterZero(norm, i) then NextNonZero(norm, i) else i;
      HeaderBound(norm, j + 1, tableLog);
      HeaderStep(norm, i, j, tableLog);
      SymbolsPaid(|norm|, i, j, tableLog + 3);
    } else {
      MulMonotone(0, |norm| - i, tableLog + 3);
    }
  }

  lemma HeaderStep(norm: seq<int>, i: nat, j: nat, tableLog: nat)
    requires i <= j < |norm| && 1 < Remaining(norm, i) <= Pow2(tableLog) + 1 && tableLog >= 1
    requires j == if AfterZero(norm, i) then NextNonZero(norm, i) else i
    ensures Header(norm, i).length <= Header(norm, j + 1).length + 2 * (j - i) + tableLog + 3
  {
    hide Header, Field, Pow2, Code, Put, Run, Share, Log2;
    HeaderAt(norm, i);
    var field, width := Field(norm[j], Remaining(norm, j)), Code(norm[j], Remaining(norm, j)).1;
    CodeBound(norm[j], Remaining(norm, j), tableLog);
    PutLength(field, width, Header(norm, j + 1));
    RunLength(j - i, Put(field, width, Header(norm, j + 1)));
  }

  lemma SymbolsPaid(n: nat, i: nat, j: nat, b: nat)
    requires i <= j < n && b >= 4
    ensures (n - (j + 1)) * b + 2 * (j - i) + b <= (n - i) * b
  {
    SumTimes(n - (j + 1), j - i + 1, b);
    SumTimes(j - i, 1, b);
    MulMonotone(2, b, j - i);
  }

  lemma PutLength(field: nat, n: nat, rest: Bits)
    ensures Put(field, n, rest).length == n + rest.length
  {
  }

  lemma CodeBound(count: int, remaining: nat, tableLog: nat)
    requires 1 <= remaining <= Pow2(tableLog) + 1 && tableLog >= 1
    ensures Code(count, remaining).1 <= tableLog + 1
  {
    hide Log2;
    Pow2Monotone(1, tableLog);
    if Log2(remaining) > tableLog {
      Pow2Strict(tableLog, Log2(remaining));
    }
  }

  /** A run of z zeros takes two bits and no more than two for every zero. */
  lemma {:induction false} RunLength(z: nat, rest: Bits)
    ensures Run(z, rest).length <= 2 + 2 * z + rest.length
    decreases z
  {
    if z >= 24 {
      RunLength(z - 24, rest);
    } else if z >= 3 {
      RunLength(z - 3, rest);
    }
  }

  /** A buffer size that is always enough. */
  lemma RoomSuffices(norm: seq<int>, tableLog: nat, bufferSize: nat)
    requires Normalized(norm, tableLog) && bufferSize >= (|norm| * (tableLog + 3) + 19) / 8 + 2
    ensures Touched(Whole(norm, tableLog)) <= bufferSize
  {
    RemainingIsRest(norm, 0);
    HeaderBound(norm, 0, tableLog);
    PutLength(tableLog - MIN_TABLELOG, 4, Header(norm, 0));
  }

  /** The bound that the writer goes by is one byte short for these eleven counts: single zeros cost two bits
      more than it allows for. */
  function ManyZeros(): seq<int> {
    [0, 1, 0, 1, 1, 1, 0, 1, 0, 2, 25]
  }

  /** The rest of the header from symbol i on, given the rest from the next one on. */
  ghost predicate Takes(norm: seq<int>, i: nat, remaining: nat, length: nat) {
    i <= |norm| && Remaining(norm, i) == remaining && Header(norm, i).length == length
  }

  lemma SymbolTakes(norm: seq<int>, i: nat, left: nat, after: nat, remaining: nat, n: nat, width: nat)
    requires i < |norm| && Takes(norm, i + 1, left, after) && left + Share(norm[i]) == remaining >= 2
    requires Pow2(n) <= remaining < 2 * Pow2(n)
    requires width == if norm[i] + 1 < 2 * Pow2(n) - 1 - remaining then n else n + 1
    requires AfterZero(norm, i) ==> norm[i] != 0
    ensures Takes(norm, i, remaining, after + width + if AfterZero(norm, i) then 2 else 0)
  {
    HeaderAt(norm, i);
    hide Header, Field, Log2, Pow2, Code;
    CodeWidth(norm[i], remaining, n);
    var rest := Put(Field(norm[i], remaining), width, Header(norm, i + 1));
    PutLength(Field(norm[i], remaining), width, Header(norm, i + 1));
    ShortRun(rest);
  }

  lemma ShortRun(rest: Bits)
    ensures Run(0, rest).length == 2 + rest.length
  {
  }

  /** The width of a code in terms of the power of two below what remains. */
  lemma CodeWidth(count: int, remaining: nat, n: nat)
    requires remaining >= 1 && Pow2(n) <= remaining < 2 * Pow2(n)
    ensures Code(count, remaining).1 == if count + 1 < 2 * Pow2(n) - 1 - remaining then n else n + 1
  {
    Log2Unique(remaining, n);
  }

  lemma ManyZerosAre(norm: seq<int>)
    requires norm == ManyZeros()
    ensures |norm| == 11 && norm[0] == norm[2] == norm[6] == norm[8] == 0
    ensures norm[1] == norm[3] == norm[4] == norm[5] == norm[7] == 1 && norm[9] == 2 && norm[10] == 25
    ensures Counts(norm) && Takes(norm, 11, 1, 0)
  {
  }

  lemma LastZerosTake(norm: seq<int>)
    requires norm == ManyZeros()
    ensures Takes(norm, 6, 29, 27)
  {
    ManyZerosAre(norm);
    assert Pow2(4) == 16;
    hide ManyZeros, Takes, Pow2, Counts;
    SymbolTakes(norm, 10, 1, 0, 26, 4, 5);
    SymbolTakes(norm, 9, 26, 5, 28, 4, 5);
    SymbolTakes(norm, 8, 28, 12, 28, 4, 4);
    SymbolTakes(norm, 7, 28, 16, 29, 4, 5);
    SymbolTakes(norm, 6, 29, 23, 29, 4, 4);
  }

  lemma MiddleZerosTake(norm: seq<int>)
    requires norm == ManyZeros()
    ensures Takes(norm, 3, 32, 44)
  {
    ManyZerosAre(norm);
    LastZerosTake(norm);
    assert Pow2(4) == 16 && Pow2(5) == 32;
    hide ManyZeros, Takes, Pow2, Counts;
    SymbolTakes(norm, 5, 29, 27, 30, 4, 5);
    SymbolTakes(norm, 4, 30, 32, 31, 4, 5);
    SymbolTakes(norm, 3, 31, 37, 32, 5, 5);
  }

  lemma ManyZerosTake(norm: seq<int>)
    requires norm == ManyZeros()
    ensures Takes(norm, 0, 33, 61)
  {
    hide ManyZeros, Takes, Counts;
    ManyZerosAre(norm);
    MiddleZerosTake(norm);
    assert Pow2(5) == 32;
    hide Pow2;
    SymbolTakes(norm, 2, 32, 44, 32, 5, 5);
    SymbolTakes(norm, 1, 32, 49, 33, 5, 5);
    SymbolTakes(norm, 0, 33, 56, 33, 5, 5);
  }

  lemma BoundTooSmall()
    ensures var norm := ManyZeros();
            && Normalized(norm, 5) && WriteBound(|norm| - 1, 5) == 9 && Touched(Whole(norm, 5)) == 10
  {
    ManyZerosAre(ManyZeros());
    ManyZerosTake(ManyZeros());
    hide ManyZeros, Counts, Takes, Whole, Touched;
    LengthTouched(ManyZeros());
  }

  lemma LengthTouched(norm: seq<int>)
    requires Counts(norm) && Takes(norm, 0, 33, 61)
    ensures Normalized(norm, 5) && Touched(Whole(norm, 5)) == 10
  {
    assert Pow2(5) == 32;
    hide Header, Remaining, Pow2, Counts, Start;
    RemainingIsRest(norm, 0);
    NothingBefore(norm);
    PutLength(0, 4, Header(norm, 0));
  }

  lemma NothingBefore(norm: seq<int>)
    ensures Start(norm, 0) == 0
  {
  }

  // ----- reading

  /** The stream from bit p on starts with h, which ends at bit `end`, and 8 more bytes follow. */
  ghost predicate Starts(bytes: seq<Byte>, end: nat, p: nat, h: Bits) {
    Low(Shr(LE(bytes), p), h.length) == h.value && p + h.length == end && end + 64 <= 8 * |bytes|
  }

  /** `bitStream`: what is left of the four bytes at ip once bitCount of their bits are consumed. */
  ghost predicate Window(bytes: seq<Byte>, ip: nat, bitCount: nat, bitStream: nat) {
    ip + 4 <= |bytes| && bitCount <= 32 && bitStream == Low(Shr(LE(bytes), 8 * ip + bitCount), 32 - bitCount)
  }

  lemma LowSplit(x: nat, a: nat, b: nat)
    ensures Low(x, a + b) == Low(x, a) + Shl(Low(Shr(x, a), b), a)
  {
    hide Low, Shr, Shl, Pow2;
    ShiftSplit(x, a, b);
    LowIsMod(x, a + b);
    LowIsMod(x, a);
    ShrIsDiv(x, a);
    LowIsMod(Shr(x, a), b);
    ShlIsTimes(Low(Shr(x, a), b), a);
  }

  lemma TakeField(bytes: seq<Byte>, end: nat, p: nat, field: nat, n: nat, rest: Bits)
    requires Starts(bytes, end, p, Put(field, n, rest)) && field < Pow2(n)
    ensures Low(Shr(LE(bytes), p), n) == field && Starts(bytes, end, p + n, rest)
  {
    hide LE;
    var x := Shr(LE(bytes), p);
    StackedField(field, rest.value, n);
    LowLow(x, n + rest.length, n);
    LowOfShr(x, n, rest.length);
    ShrShr(LE(bytes), p, n);
  }

  /** `MEM_readLE32(ip) >> bitCount` */
  method Load(bytes: seq<Byte>, ip: nat, bitCount: nat) returns (bitStream: nat)
    requires ip + 4 <= |bytes| && bitCount <= 31
    ensures Window(bytes, ip, bitCount, bitStream)
  {
    var word := ReadLE(bytes, ip, ip + 4);
    bitStream := Shr(word, bitCount);
    LoadedWindow(bytes, ip, bitCount);
  }

  lemma LoadedWindow(bytes: seq<Byte>, ip: nat, bitCount: nat)
    requires ip + 4 <= |bytes| && bitCount <= 31
    ensures Window(bytes, ip, bitCount, Shr(LE(bytes[ip..ip + 4]), bitCount))
  {
    LESplit(bytes, ip);
    LESplit(bytes[ip..], 4);
    assert bytes[ip..][..4] == bytes[ip..ip + 4];
    LowOfShr(Shr(LE(bytes), 8 * ip), bitCount, 32 - bitCount);
    ShrShr(LE(bytes), 8 * ip, bitCount);
  }

  lemma Peek(bytes: seq<Byte>, ip: nat, bitCount: nat, bitStream: nat, n: nat)
    requires Window(bytes, ip, bitCount, bitStream) && bitCount + n <= 32
    ensures Low(bitStream, n) == Low(Shr(LE(bytes), 8 * ip + bitCount), n)
    ensures Window(bytes, ip, bitCount + n, Shr(bitStream, n))
  {
    hide LE;
    var x := Shr(LE(bytes), 8 * ip + bitCount);
    LowLow(x, 32 - bitCount, n);
    LowOfShr(x, n, 32 - bitCount - n);
    ShrShr(LE(bytes), 8 * ip + bitCount, n);
  }

  // ----- runs of zeros

  /** Whether the next 16 bits are all ones tells a long run from a short one. */
  lemma RunPeek(x: nat, zeros: nat, rest: Bits)
    requires Low(x, Run(zeros, rest).length) == Run(zeros, rest).value
    ensures zeros >= 24 ==> Low(x, 16) == 0xFFFF
    ensures zeros < 24 ==> Low(x, 16) != 0xFFFF
    ensures zeros < 24 ==> (zeros >= 3 <==> Low(x, 2) == 3) && (zeros < 3 ==> Low(x, 2) == zeros)
  {
    SmallPowers();
    if zeros >= 24 {
      LongPeek(x, 0xFFFF, 16, Run(zeros - 24, rest));
    } else {
      ShortPeek(x, zeros, rest, 16);
      if zeros >= 3 {
        LongPeek(x, 3, 2, Run(zeros - 3, rest));
      } else {
        LongPeek(x, zeros, 2, rest);
      }
    }
  }

  lemma LongPeek(x: nat, field: nat, n: nat, rest: Bits)
    requires Low(x, Put(field, n, rest).length) == Put(field, n, rest).value && field < Pow2(n)
    ensures Low(x, n) == field && Low(Shr(x, n), rest.length) == rest.value
  {
    StackedField(field, rest.value, n);
    LowLow(x, n + rest.length, n);
    LowOfShr(x, n, rest.length);
  }

  /** A short run ends before n bits are all ones. */
  lemma {:induction false} ShortPeek(x: nat, zeros: nat, rest: Bits, n: nat)
    requires zeros < 24 && Low(x, Run(zeros, rest).length) == Run(zeros, rest).value
    requires n >= 2 * (zeros / 3) + 2
    ensures Low(x, n) != Pow2(n) - 1
    decreases zeros
  {
    hide Low, Shr, Shl, Pow2;
    SmallPowers();
    LowSplit(x, 2, n - 2);
    Pow2Add(2, n - 2);
    var high := Low(Shr(x, 2), n - 2);
    ShlIsTimes(high, 2);
    if zeros >= 3 {
      LongPeek(x, 3, 2, Run(zeros - 3, rest));
      ShortPeek(Shr(x, 2), zeros - 3, rest, n - 2);
    } else {
      LongPeek(x, zeros, 2, rest);
      LowBelow(Shr(x, 2), n - 2);
    }
  }

  lemma OnesGrow(x: nat, n: nat)
    requires Low(x, n) == Pow2(n) - 1 && Low(Shr(x, n), 2) == 3
    ensures Low(x, n + 2) == Pow2(n + 2) - 1
  {
    LowSplit(x, n, 2);
    ShlIsTimes(3, n);
    Pow2Add(n, 2);
    SmallPowers();
  }

  /** The runs of 24 zeros. */
  method SkipLong(bytes: seq<Byte>, ghost end: nat, ip0: nat, bitCount0: nat, bitStream0: nat, ghost good: bool,
                  ghost zeros0: nat, ghost rest: Bits)
    returns (n: nat, ip: nat, bitCount: nat, bitStream: nat, ghost zeros: nat)
    requires ip0 + 4 <= |bytes| && (bitCount0 <= 7 || ip0 + 4 == |bytes|)
    requires good ==> Window(bytes, ip0, bitCount0, bitStream0) && bitCount0 <= 7
                      && Starts(bytes, end, 8 * ip0 + bitCount0, Run(zeros0, rest))
    ensures ip + 4 <= |bytes| && (ip + 7 <= |bytes| ==> bitCount <= 7) && Low(bitStream, 16) != 0xFFFF
    ensures good ==> Window(bytes, ip, bitCount, bitStream) && bitCount <= 7
                     && Starts(bytes, end, 8 * ip + bitCount, Run(zeros, rest)) && n + zeros == zeros0 && zeros < 24
  {
    hide Window, Starts, Low, Shr, Run;
    n, ip, bitCount, bitStream, zeros := 0, ip0, bitCount0, bitStream0, zeros0;
    if good {
      RunAhead(bytes, end, ip, bitCount, bitStream, zeros, rest);
    }
    while Low(bitStream, 16) == 0xFFFF
      invariant ip + 4 <= |bytes| && (ip + 7 <= |bytes| ==> bitCount <= 7) && (bitCount <= 7 || ip + 5 >= |bytes|)
      invariant good ==> Window(bytes, ip, bitCount, bitStream) && bitCount <= 7
                         && Starts(bytes, end, 8 * ip + bitCount, Run(zeros, rest)) && n + zeros == zeros0
                         && (zeros >= 24 <==> Low(bitStream, 16) == 0xFFFF)
      decreases |bytes| - ip, bitStream
    {
      n := n + 24;
      if good {
        LongRunTaken(bytes, end, ip, bitCount, zeros, rest);
        zeros := zeros - 24;
      }
      if ip + 5 < |bytes| {
        ip := ip + 2;
        bitStream := Load(bytes, ip, bitCount);
      } else {
        OnesShrink(bitStream);
        bitStream := Shr(bitStream, 16);
        bitCount := bitCount + 16;
      }
      if good {
        RunAhead(bytes, end, ip, bitCount, bitStream, zeros, rest);
      }
    }
  }

  lemma OnesShrink(x: nat)
    requires Low(x, 16) == 0xFFFF
    ensures Shr(x, 16) < x
  {
    ShiftBack(x, 16);
    ShlIsTimes(Shr(x, 16), 16);
    MulMonotone(1, Pow2(16), Shr(x, 16));
  }

  lemma RunAhead(bytes: seq<Byte>, end: nat, ip: nat, bitCount: nat, bitStream: nat, zeros: nat, rest: Bits)
    requires Window(bytes, ip, bitCount, bitStream) && bitCount <= 7
             && Starts(bytes, end, 8 * ip + bitCount, Run(zeros, rest))
    ensures zeros >= 24 <==> Low(bitStream, 16) == 0xFFFF
    ensures ip + 8 <= |bytes|
  {
    RunPeek(Shr(LE(bytes), 8 * ip + bitCount), zeros, rest);
    Peek(bytes, ip, bitCount, bitStream, 16);
  }

  lemma LongRunTaken(bytes: seq<Byte>, end: nat, ip: nat, bitCount: nat, zeros: nat, rest: Bits)
    requires bitCount <= 7 && zeros >= 24 && Starts(bytes, end, 8 * ip + bitCount, Run(zeros, rest))
    ensures ip + 10 <= |bytes| && Starts(bytes, end, 8 * (ip + 2) + bitCount, Run(zeros - 24, rest))
  {
    SmallPowers();
    TakeField(bytes, end, 8 * ip + bitCount, 0xFFFF, 16, Run(zeros - 24, rest));
  }

  /** The threes and the remainder. */
  method SkipShort(bytes: seq<Byte>, ghost end: nat, ip: nat, bitCount0: nat, bitStream0: nat, ghost good: bool,
                   ghost zeros0: nat, ghost rest: Bits)
    returns (n: nat, bitCount: nat, bitStream: nat)
    requires Low(bitStream0, 16) != 0xFFFF
    requires good ==> Window(bytes, ip, bitCount0, bitStream0) && bitCount0 <= 7 && zeros0 < 24
                      && Starts(bytes, end, 8 * ip + bitCount0, Run(zeros0, rest))
    ensures bitCount0 <= bitCount <= bitCount0 + 16
    ensures good ==> n == zeros0 && Starts(bytes, end, 8 * ip + bitCount, rest)
  {
    hide Window, Starts, Low, Shr, Run, Pow2;
    n, bitCount, bitStream := 0, bitCount0, bitStream0;
    ghost var t, zeros := 0, zeros0;
    NoOnes(bitStream0);
    while Low(bitStream, 2) == 3
      invariant t <= 7 && bitCount == bitCount0 + 2 * t && bitStream == Shr(bitStream0, 2 * t)
      invariant Low(bitStream0, 2 * t) == Pow2(2 * t) - 1
      invariant good ==> Window(bytes, ip, bitCount, bitStream) && zeros < 24 && n + zeros == zeros0
                         && Starts(bytes, end, 8 * ip + bitCount, Run(zeros, rest))
      decreases bitStream
    {
      OnesGrow(bitStream0, 2 * t);
      SixteenOnes(bitStream0, 2 * t + 2);
      ShrShr(bitStream0, 2 * t, 2);
      ThreeShrinks(bitStream);
      if good {
        ThreeTaken(bytes, end, ip, bitCount, bitStream, zeros, rest);
        zeros := zeros - 3;
      }
      n := n + 3;
      bitStream := Shr(bitStream, 2);
      bitCount := bitCount + 2;
      t := t + 1;
    }
    if good {
      LastTaken(bytes, end, ip, bitCount, bitStream, zeros, rest);
    }
    n := n + Low(bitStream, 2);
    bitCount := bitCount + 2;
  }

  lemma NoOnes(x: nat)
    ensures Low(x, 0) == Pow2(0) - 1 && Shr(x, 0) == x
  {
  }

  lemma SixteenOnes(x: nat, n: nat)
    requires Low(x, n) == Pow2(n) - 1 && Low(x, 16) != 0xFFFF
    ensures n != 16
  {
    SmallPowers();
  }

  lemma ThreeShrinks(x: nat)
    requires Low(x, 2) == 3
    ensures Shr(x, 2) < x
  {
    ShiftBack(x, 2);
    ShlIsTimes(Shr(x, 2), 2);
  }

  lemma ThreeTaken(bytes: seq<Byte>, end: nat, ip: nat, bitCount: nat, bitStream: nat, zeros: nat, rest: Bits)
    requires Window(bytes, ip, bitCount, bitStream) && bitCount <= 21 && zeros < 24 && Low(bitStream, 2) == 3
    requires Starts(bytes, end, 8 * ip + bitCount, Run(zeros, rest))
    ensures zeros >= 3 && Window(bytes, ip, bitCount + 2, Shr(bitStream, 2))
    ensures Starts(bytes, end, 8 * ip + bitCount + 2, Run(zeros - 3, rest))
  {
    Peek(bytes, ip, bitCount, bitStream, 2);
    RunPeek(Shr(LE(bytes), 8 * ip + bitCount), zeros, rest);
    SmallPowers();
    TakeField(bytes, end, 8 * ip + bitCount, 3, 2, Run(zeros - 3, rest));
  }

  lemma LastTaken(bytes: seq<Byte>, end: nat, ip: nat, bitCount: nat, bitStream: nat, zeros: nat, rest: Bits)
    requires Window(bytes, ip, bitCount, bitStream) && bitCount <= 21 && zeros < 24 && Low(bitStream, 2) != 3
    requires Starts(bytes, end, 8 * ip + bitCount, Run(zeros, rest))
    ensures Low(bitStream, 2) == zeros && Starts(bytes, end, 8 * ip + bitCount + 2, rest)
  {
    Peek(bytes, ip, bitCount, bitStream, 2);
    RunPeek(Shr(LE(bytes), 8 * ip + bitCount), zeros, rest);
    SmallPowers();
    TakeField(bytes, end, 8 * ip + bitCount, zeros, 2, rest);
  }

  // ----- the reader

  /** What the reader returns: the counts up to the largest symbol the caller allows, the largest symbol
      present, the table log and the size of the header. */
  datatype Counted = Counted(norm: seq<int>, maxSymbolValue: nat, tableLog: nat, size: nat)

  /** Moves on to where bitCount points, if there are four bytes left there. */
  predicate CanAdvance(bytes: seq<Byte>, ip: nat, bitCount: nat) {
    ip + 7 <= |bytes| || ip + bitCount / 8 + 4 <= |bytes|
  }

  lemma Advance(bytes: seq<Byte>, end: nat, ip: nat, bitCount: nat, h: Bits)
    requires Starts(bytes, end, 8 * ip + bitCount, h)
    ensures ip + bitCount / 8 + 8 <= |bytes|
    ensures Starts(bytes, end, 8 * (ip + bitCount / 8) + bitCount % 8, h)
  {
    assert 8 * (ip + bitCount / 8) + bitCount % 8 == 8 * ip + bitCount;
  }

  /** The zeros before the next symbol. */
  method ReadRun(bytes: seq<Byte>, ghost end: nat, ip0: nat, bitCount0: nat, bitStream0: nat, ghost good: bool,
                 ghost zeros: nat, ghost rest: Bits)
    returns (n: nat, ip: nat, bitCount: nat, bitStream: nat)
    requires ip0 + 4 <= |bytes| && (bitCount0 <= 7 || ip0 + 4 == |bytes|)
    requires good ==> Window(bytes, ip0, bitCount0, bitStream0) && bitCount0 <= 7
                      && Starts(bytes, end, 8 * ip0 + bitCount0, Run(zeros, rest))
    ensures ip + 4 <= |bytes| && (ip + 7 <= |bytes| ==> bitCount <= 7)
    ensures good ==> n == zeros && bitCount <= 7 && Window(bytes, ip, bitCount, bitStream)
                     && Starts(bytes, end, 8 * ip + bitCount, rest)
  {
    hide Window, Starts, Low, Shr, Run;
    ghost var left;
    n, ip, bitCount, bitStream, left := SkipLong(bytes, end, ip0, bitCount0, bitStream0, good, zeros, rest);
    var m;
    m, bitCount, bitStream := SkipShort(bytes, end, ip, bitCount, bitStream, good, left, rest);
    n := n + m;
    if good {
      Advance(bytes, end, ip, bitCount, rest);
    }
    if CanAdvance(bytes, ip, bitCount) {
      ip := ip + bitCount / 8;
      bitCount := bitCount % 8;
      bitStream := Load(bytes, ip, bitCount);
    } else {
      bitStream := Shr(bitStream, 2);
    }
  }

  /** The count of one symbol, and the move to the next. */
  method ReadCount(bytes: seq<Byte>, ghost end: nat, ip0: nat, bitCount0: nat, bitStream0: nat, remaining: nat,
                   threshold: nat, nbBits: nat,
                   ghost good: bool, ghost expected: int, ghost rest: Bits)
    returns (count: int, ip: nat, bitCount: nat, bitStream: nat)
    requires ip0 + 4 <= |bytes| && (ip0 + 7 <= |bytes| ==> bitCount0 <= 7)
    requires remaining >= 2 && threshold == Pow2(Log2(remaining)) && nbBits == Log2(remaining) + 1 <= 16
    requires good ==> expected >= -1 && Share(expected) < remaining && bitCount0 <= 7
                      && Window(bytes, ip0, bitCount0, bitStream0)
                      && Starts(bytes, end, 8 * ip0 + bitCount0, Put(Field(expected, remaining), Code(expected, remaining).1, rest))
    ensures count >= -1 && Share(count) < remaining
    ensures ip + 4 <= |bytes| && (bitCount <= 7 || ip + 4 == |bytes|)
    ensures good ==> count == expected && bitCount <= 7 && Window(bytes, ip, bitCount, bitStream)
                     && Starts(bytes, end, 8 * ip + bitCount, rest)
  {
    hide Window, Starts, Low, Shr, Put, Field, Code, Pow2, Log2;
    var max := (2 * threshold - 1) - remaining;
    bitCount, ip := bitCount0, ip0;
    DecodedFits(bitStream0, remaining);
    if Low(bitStream0, nbBits - 1) < max {
      count := Low(bitStream0, nbBits - 1);
      bitCount := bitCount + (nbBits - 1);
    } else {
      count := Low(bitStream0, nbBits);
      if count >= threshold {
        count := count - max;
      }
      bitCount := bitCount + nbBits;
    }
    count := count - 1;
    assert (count, bitCount - bitCount0) == Decoded(bitStream0, remaining);
    if good {
      CountTaken(bytes, end, ip, bitCount0, bitStream0, remaining, expected, rest);
      Advance(bytes, end, ip, bitCount, rest);
    }
    if CanAdvance(bytes, ip, bitCount) {
      ip := ip + bitCount / 8;
      bitCount := bitCount % 8;
    } else {
      bitCount := bitCount - 8 * (|bytes| - 4 - ip);
      ip := |bytes| - 4;
    }
    bitStream := Load(bytes, ip, bitCount % 32);
  }

  lemma CountTaken(bytes: seq<Byte>, end: nat, ip: nat, bitCount: nat, bitStream: nat, remaining: nat, count: int,
                   rest: Bits)
    requires remaining >= 2 && count >= -1 && Share(count) < remaining && Log2(remaining) <= 15
    requires bitCount <= 7 && Window(bytes, ip, bitCount, bitStream)
    requires Starts(bytes, end, 8 * ip + bitCount, Put(Field(count, remaining), Code(count, remaining).1, rest))
    ensures Decoded(bitStream, remaining) == (count, Code(count, remaining).1)
    ensures Starts(bytes, end, 8 * ip + bitCount + Code(count, remaining).1, rest)
  {
    hide Window, Starts, Low, Shr, Put, Pow2, Log2, Decoded;
    CodeDecodes(count, remaining);
    var width := Code(count, remaining).1;
    Peek(bytes, ip, bitCount, bitStream, width);
    TakeField(bytes, end, 8 * ip + bitCount, Field(count, remaining), width, rest);
    DecodedIsCount(bitStream, count, remaining);
  }

  /** The reader's variables before symbol |counts|; on a header of `norm` they are in step with it. */
  ghost predicate InStep(bytes: seq<Byte>, end: nat, ip: nat, bitCount: nat, bitStream: nat, counts: seq<int>,
                      remaining: nat,
                         previous0: bool, good: bool, norm: seq<int>)
  {
    && ip + 4 <= |bytes| && (bitCount <= 7 || ip + 4 == |bytes|)
    && (good ==> |counts| <= |norm| && counts == norm[..|counts|]
                 && remaining == Remaining(norm, |counts|) && (previous0 <==> AfterZero(norm, |counts|))
                 && bitCount <= 7 && Window(bytes, ip, bitCount, bitStream)
                 && Starts(bytes, end, 8 * ip + bitCount, Header(norm, |counts|)))
  }

  function Zeros(n: nat): (z: seq<int>)
    ensures |z| == n
  {
    seq(n, _ => 0)
  }

  lemma {:induction false} StartAppend(s: seq<int>, t: seq<int>)
    ensures Start(s + t, |s|) == Start(s, |s|)
    ensures t == Zeros(|t|) ==> Start(s + t, |s + t|) == Start(s, |s|)
  {
    StartPrefix(s, t, |s|);
    if t == Zeros(|t|) {
      StartOfZeros(s, t, |t|);
      assert |s + t| == |s| + |t|;
    }
  }

  lemma {:induction false} StartPrefix(s: seq<int>, t: seq<int>, n: nat)
    requires n <= |s|
    ensures Start(s + t, n) == Start(s, n)
  {
    if n > 0 {
      StartPrefix(s, t, n - 1);
    }
  }

  lemma {:induction false} StartOfZeros(s: seq<int>, t: seq<int>, n: nat)
    requires n <= |t| && t == Zeros(|t|)
    ensures Start(s + t, |s| + n) == Start(s, |s|)
  {
    if n > 0 {
      StartOfZeros(s, t, n - 1);
    } else {
      StartPrefix(s, t, |s|);
    }
  }

  lemma StartOne(s: seq<int>, c: int)
    ensures Start(s + [c], |s| + 1) == Start(s, |s|) + Share(c)
  {
    StartPrefix(s, [c], |s|);
  }

  /** One round of the loop. */
  method ReadSymbol(bytes: seq<Byte>, ghost end: nat, maxSymbolValue: nat, ip0: nat, bitCount0: nat, bitStream0: nat,
                    counts0: seq<int>,
                    remaining0: nat, threshold0: nat, nbBits0: nat, previous0: bool, ghost good: bool, ghost norm: seq<int>)
    returns (ok: bool, ip: nat, bitCount: nat, bitStream: nat, counts: seq<int>, remaining: nat, threshold: nat,
             nbBits: nat, previous0': bool)
    requires InStep(bytes, end, ip0, bitCount0, bitStream0, counts0, remaining0, previous0, good, norm)
    requires good ==> Counts(norm) && |norm| <= maxSymbolValue + 1
    requires remaining0 > 1 && |counts0| <= maxSymbolValue
    requires threshold0 == Pow2(Log2(remaining0)) && nbBits0 == Log2(remaining0) + 1 <= 16
    ensures good ==> ok
    ensures ok ==> InStep(bytes, end, ip, bitCount, bitStream, counts, remaining, previous0', good, norm)
    ensures ok ==> |counts0| < |counts| <= maxSymbolValue + 1 && (previous0' ==> remaining > 1)
    ensures ok ==> remaining >= 1 && threshold == Pow2(Log2(remaining)) && nbBits == Log2(remaining) + 1 <= 16
    ensures ok ==> remaining + Start(counts, |counts|) == remaining0 + Start(counts0, |counts0|)
    ensures ok ==> (forall s :: 0 <= s < |counts0| ==> counts0[s] >= -1) ==> forall s :: 0 <= s < |counts| ==>
              counts[s] >= -1
  {
    hide Window, Starts, Low, Shr, Put, Run, Field, Code, Pow2, Log2, Header, Remaining, Start;
    ok, ip, bitCount, bitStream, counts := true, ip0, bitCount0, bitStream0, counts0;
    remaining, threshold, nbBits, previous0' := remaining0, threshold0, nbBits0, previous0;
    ghost var j: nat, code: Bits, rest := |counts0|, EMPTY, EMPTY;
    if good {
      HeaderAt(norm, |counts0|);
      j := if previous0 then NextNonZero(norm, |counts0|) else |counts0|;
      rest := Header(norm, j + 1);
      code := Put(Field(norm[j], remaining0), Code(norm[j], remaining0).1, rest);
      CountBounds(norm, j);
    }
    if previous0 {
      var n;
      n, ip, bitCount, bitStream := ReadRun(bytes, end, ip0, bitCount0, bitStream0, good, j - |counts0|, code);
      if |counts0| + n > maxSymbolValue {
        return false, ip, bitCount, bitStream, counts, remaining, threshold, nbBits, previous0';
      }
      counts := counts0 + Zeros(n);
      StartAppend(counts0, Zeros(n));
    }
    assert good ==> counts == norm[..j];
    var count;
    count, ip, bitCount, bitStream := ReadCount(bytes, end, ip, bitCount, bitStream, remaining0, threshold0, nbBits0, good,
                                                if good then norm[j] else 0, rest);
    StartOne(counts, count);
    counts := counts + [count];
    remaining, previous0' := remaining0 - Share(count), count == 0;
    LogsFall(remaining, remaining0);
    threshold, nbBits := Shrink(remaining, threshold0, nbBits0);
  }

  /** The header starts the input and is followed by eight bytes, and its symbols are allowed. */
  ghost predicate HeaderFollows(bytes: seq<Byte>, maxSymbolValue: nat, norm: seq<int>, tableLog: nat) {
    && Normalized(norm, tableLog) && |norm| <= maxSymbolValue + 1
    && var size := (Whole(norm, tableLog).length + 7) / 8;
       size + 8 <= |bytes| && IsHeader(bytes[..size], norm, tableLog)
  }

  /** The counts of `norm`, with zeros after its last symbol up to the largest allowed. */
  predicate Same(r: Counted, norm: seq<int>, tableLog: nat, maxSymbolValue: nat) {
    && r.tableLog == tableLog && |r.norm| == maxSymbolValue + 1 >= |norm|
    && (forall s :: 0 <= s < |r.norm| ==> r.norm[s] == if s < |norm| then norm[s] else 0)
    && r.maxSymbolValue < |norm| && norm[r.maxSymbolValue] != 0
    && forall s :: r.maxSymbolValue < s < |norm| ==> norm[s] == 0
  }

  lemma {:induction false} HeaderProper(norm: seq<int>, i: nat)
    requires Counts(norm) && i <= |norm|
    ensures Proper(Header(norm, i))
    decreases |norm| - i
  {
    hide Header, Put, Run, Field, Code, Pow2, Log2, Remaining, Proper, Counts;
    HeaderAt(norm, i);
    EmptyProper();
    if Remaining(norm, i) > 1 {
      var j := if AfterZero(norm, i) then NextNonZero(norm, i) else i;
      HeaderProper(norm, j + 1);
      CountBounds(norm, j);
      CodeDecodes(norm[j], Remaining(norm, j));
      var field, width := Field(norm[j], Remaining(norm, j)), Code(norm[j], Remaining(norm, j)).1;
      PutProper(field, width, Header(norm, j + 1));
      RunProper(j - i, Put(field, width, Header(norm, j + 1)));
    }
  }

  lemma EmptyProper()
    ensures Proper(EMPTY)
  {
  }

  lemma PutProper(field: nat, n: nat, rest: Bits)
    requires field < Pow2(n) && Proper(rest)
    ensures Proper(Put(field, n, rest))
  {
    ShlBelow(rest.value, rest.length, n);
  }

  lemma {:induction false} RunProper(zeros: nat, rest: Bits)
    requires Proper(rest)
    ensures Proper(Run(zeros, rest))
    decreases zeros
  {
    SmallPowers();
    if zeros >= 24 {
      RunProper(zeros - 24, rest);
      PutProper(0xFFFF, 16, Run(zeros - 24, rest));
    } else if zeros >= 3 {
      RunProper(zeros - 3, rest);
      PutProper(3, 2, Run(zeros - 3, rest));
    } else {
      PutProper(zeros, 2, rest);
    }
  }

  lemma HeaderStarts(bytes: seq<Byte>, maxSymbolValue: nat, norm: seq<int>, tableLog: nat)
    requires HeaderFollows(bytes, maxSymbolValue, norm, tableLog)
    ensures Starts(bytes, Whole(norm, tableLog).length, 0, Whole(norm, tableLog)) && tableLog - MIN_TABLELOG < Pow2(4)
  {
    var whole := Whole(norm, tableLog);
    var size := (whole.length + 7) / 8;
    HeaderProper(norm, 0);
    assert Pow2(4) == 16;
    PutProper(tableLog - MIN_TABLELOG, 4, Header(norm, 0));
    hide LE, Whole, Low, Shr, Pow2;
    LESplit(bytes, size);
    LowLow(LE(bytes), 8 * size, whole.length);
    LowOfSmall(whole.value, whole.length);
    NothingShifted(LE(bytes));
  }

  lemma NothingShifted(x: nat)
    ensures Shr(x, 0) == x
  {
  }

  /** FSE_readNCount on at least four bytes. Whatever it accepts is a distribution, and it never looks
      beyond the input; on the header of a distribution it gives that distribution back. */
  method ReadHeader(bytes: seq<Byte>, maxSymbolValue: nat, ghost norm: seq<int>,
                    ghost tableLog: nat) returns (r: Result<Counted>)
    requires |bytes| >= 4
    ensures r == Err("tableLog_tooLarge") <==> bytes[0] % 16 + 5 > 15
    ensures r.Ok? ==> IsDistribution(r.value, maxSymbolValue) && r.value.size <= |bytes|
    ensures HeaderFollows(bytes, maxSymbolValue, norm, tableLog) ==>
              r.Ok? && Same(r.value, norm, tableLog, maxSymbolValue) && r.value.size == (Whole(norm, tableLog).length + 7) / 8
  {
    hide Window, Starts, Low, Shr, Pow2, Log2, Header, Remaining, Start, Counts, LE, IsHeader;
    ghost var good := HeaderFollows(bytes, maxSymbolValue, norm, tableLog);
    ghost var end := if good then Whole(norm, tableLog).length else 0;
    var bitStream := Load(bytes, 0, 0);
    var nbBits: nat := Low(bitStream, 4) + MIN_TABLELOG;
    FirstNibble(bytes, bitStream);
    if good {
      FirstField(bytes, bitStream, maxSymbolValue, norm, tableLog);
    }
    if nbBits > TABLELOG_ABSOLUTE_MAX {
      return Err("tableLog_tooLarge");
    }
    bitStream := Shr(bitStream, 4);
    var ip: nat, bitCount: nat, log := 0, 4, nbBits;
    var remaining: nat, threshold: nat, counts: seq<int>, previous0 := Pow2(log) + 1, Pow2(log), [], false;
    nbBits := nbBits + 1;
    StartLog(log);
    NoCounts();
    while remaining > 1 && |counts| <= maxSymbolValue
      invariant InStep(bytes, end, ip, bitCount, bitStream, counts, remaining, previous0, good, norm)
      invariant |counts| <= maxSymbolValue + 1 && forall s :: 0 <= s < |counts| ==> counts[s] >= -1
      invariant remaining >= 1 && threshold == Pow2(Log2(remaining)) && nbBits == Log2(remaining) + 1 <= 16
      invariant remaining + Start(counts, |counts|) == Pow2(log) + 1
      invariant remaining > 1 || |counts| > 0
      invariant previous0 ==> remaining > 1
      decreases maxSymbolValue + 1 - |counts|
    {
      var ok;
      ok, ip, bitCount, bitStream, counts, remaining, threshold, nbBits, previous0 :=
        ReadSymbol(bytes, end, maxSymbolValue, ip, bitCount, bitStream, counts, remaining, threshold, nbBits, previous0, good, norm);
      if !ok {
        return Err("maxSymbolValue_tooSmall");
      }
    }
    assert |counts| > 0;
    if good {
      AllCounted(bytes, end, ip, bitCount, bitStream, counts, remaining, previous0, norm, maxSymbolValue);
    }
    if remaining != 1 {
      return Err("corruption_detected");
    }
    if bitCount > 32 {
      return Err("corruption_detected");
    }
    StartAppend(counts, Zeros(maxSymbolValue + 1 - |counts|));
    r := Ok(Counted(counts + Zeros(maxSymbolValue + 1 - |counts|), |counts| - 1, log, ip + (bitCount + 7) / 8));
  }

  /** A valid distribution with as many symbols as the caller allows. */
  predicate IsDistribution(r: Counted, maxSymbolValue: nat) {
    && |r.norm| == maxSymbolValue + 1 && r.maxSymbolValue <= maxSymbolValue
    && 5 <= r.tableLog <= 15
    && (forall s :: 0 <= s < |r.norm| ==> r.norm[s] >= -1)
    && (forall s :: r.maxSymbolValue < s < |r.norm| ==> r.norm[s] == 0)
    && Start(r.norm, |r.norm|) == Pow2(r.tableLog)
  }

  lemma FirstNibble(bytes: seq<Byte>, bitStream: nat)
    requires Window(bytes, 0, 0, bitStream)
    ensures Low(bitStream, 4) == bytes[0] % 16
  {
    Peek(bytes, 0, 0, bitStream, 4);
    assert LE(bytes) == bytes[0] + 256 * LE(bytes[1..]);
    assert Shr(LE(bytes), 0) == LE(bytes) && Pow2(4) == 16;
    LowIsMod(LE(bytes), 4);
    NibbleOf(bytes[0], LE(bytes[1..]));
  }

  lemma NibbleOf(b: nat, rest: nat)
    ensures (b + 256 * rest) % 16 == b % 16
  {
    assert b + 256 * rest == 16 * (b / 16 + 16 * rest) + b % 16;
  }

  lemma NoCounts()
    ensures Start([], 0) == 0
  {
  }

  lemma FirstField(bytes: seq<Byte>, bitStream: nat, maxSymbolValue: nat, norm: seq<int>, tableLog: nat)
    requires HeaderFollows(bytes, maxSymbolValue, norm, tableLog) && Window(bytes, 0, 0, bitStream)
    ensures Low(bitStream, 4) + MIN_TABLELOG == tableLog <= MAX_TABLELOG
    ensures InStep(bytes, Whole(norm, tableLog).length, 0, 4, Shr(bitStream, 4), [], Pow2(tableLog) + 1, false, true, norm)
  {
    hide LE, Low, Shr, Header, Pow2;
    HeaderStarts(bytes, maxSymbolValue, norm, tableLog);
    Peek(bytes, 0, 0, bitStream, 4);
    TakeField(bytes, Whole(norm, tableLog).length, 0, tableLog - MIN_TABLELOG, 4, Header(norm, 0));
    RemainingIsRest(norm, 0);
  }

  lemma {:induction false} NothingRemains(norm: seq<int>, i: nat, s: nat)
    requires i <= s < |norm| && Remaining(norm, i) == 1
    ensures norm[s] == 0
    decreases s - i
  {
    if i < s {
      NothingRemains(norm, i + 1, s);
    }
  }

  lemma AllCounted(bytes: seq<Byte>, end: nat, ip: nat, bitCount: nat, bitStream: nat, counts: seq<int>, remaining: nat,
                   previous0: bool, norm: seq<int>, maxSymbolValue: nat)
    requires InStep(bytes, end, ip, bitCount, bitStream, counts, remaining, previous0, true, norm)
    requires remaining <= 1 || |counts| > maxSymbolValue
    requires |norm| <= maxSymbolValue + 1 && Counts(norm) && |counts| > 0 && (previous0 ==> remaining > 1)
    ensures remaining == 1 && bitCount <= 7 && 8 * ip + bitCount == end
    ensures |counts| <= |norm| && counts == norm[..|counts|] && forall s :: |counts| <= s < |norm| ==> norm[s] == 0
    ensures norm[|counts| - 1] != 0
  {
    hide LE, Low, Shr;
    assert remaining == 1;
    HeaderAt(norm, |counts|);
    forall s: nat | |counts| <= s < |norm|
      ensures norm[s] == 0
    {
      NothingRemains(norm, |counts|, s);
    }
  }

  /** FSE_readNCount: fewer than four bytes are padded with zeros. */
  method ReadNCount(bytes: seq<Byte>, maxSymbolValue: nat, ghost norm: seq<int>,
                    ghost tableLog: nat) returns (r: Result<Counted>)
    ensures r == Err("tableLog_tooLarge") <==> |bytes| > 0 && bytes[0] % 16 + 5 > 15
    ensures r.Ok? ==> IsDistribution(r.value, maxSymbolValue) && r.value.size <= |bytes|
    ensures HeaderFollows(bytes, maxSymbolValue, norm, tableLog) ==>
              r.Ok? && Same(r.value, norm, tableLog, maxSymbolValue) && r.value.size == (Whole(norm, tableLog).length + 7) / 8
  {
    hide IsDistribution, Same, Whole;
    if |bytes| < 4 {
      r := ReadHeader(bytes + seq(4 - |bytes|, _ => 0), maxSymbolValue, [], 0);
      if r.Ok? && r.value.size > |bytes| {
        return Err("corruption_detected");
      }
    } else {
      r := ReadHeader(bytes, maxSymbolValue, norm, tableLog);
    }
  }

  /** What is written and followed by at least eight bytes is read back: the same counts, the same table
      log and exactly the size written, for every distribution. */
  method RoundTrip(norm: seq<int>, tableLog: nat, bufferSize: nat, behind: seq<Byte>, maxSymbolValue: nat)
    returns (written: Result<seq<Byte>>, read: Result<Counted>)
    requires Normalized(norm, tableLog) && |behind| >= 8 && |norm| <= maxSymbolValue + 1
    ensures written.Ok? <==> Touched(Whole(norm, tableLog)) <= bufferSize
    ensures written.Ok? ==> read.Ok? && Same(read.value, norm, tableLog, maxSymbolValue)
                            && read.value.size == |written.value|
  {
    hide Same, IsDistribution, Counts, Touched, Whole;
    written := WriteNCount(norm, tableLog, bufferSize);
    if written.Ok? {
      var size := |written.value|;
      assert (written.value + behind)[..size] == written.value;
      read := ReadNCount(written.value + behind, maxSymbolValue, norm, tableLog);
    } else {
      read := Err(written.error);
    }
  }
}
