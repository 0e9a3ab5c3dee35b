/** The bit stream of the FSE coder: written forward through a 64-bit register into a byte buffer,
    read backward from its last byte. Seen from outside it is a stack of bit fields. */
module BitStream {
  import opened Powers
  import opened Bytes

  /** A stack of bits: `value` read as `length` bits, the top of the stack in the high bits. */
  datatype Bits = Bits(value: nat, length: nat)

  const EMPTY := Bits(0, 0)

  function Push(b: Bits, field: nat, n: nat): Bits {
    Bits(b.value + Shl(field, b.length), b.length + n)
  }

  function Top(b: Bits, n: nat): nat
    requires n <= b.length
  {
    Shr(b.value, b.length - n)
  }

  function Pop(b: Bits, n: nat): Bits
    requires n <= b.length
  {
    Bits(Low(b.value, b.length - n), b.length - n)
  }

  ghost predicate Proper(b: Bits) {
    b.value < Pow2(b.length)
  }

  lemma PushProper(b: Bits, field: nat, n: nat)
    requires Proper(b) && field < Pow2(n)
    ensures Proper(Push(b, field, n))
  {
    ShlBelow(field, n, b.length);
  }

  /** Reading takes off what was added last. */
  lemma PopUndoesPush(b: Bits, field: nat, n: nat)
    requires Proper(b)
    ensures Top(Push(b, field, n), n) == field && Pop(Push(b, field, n), n) == b
  {
    StackedField(b.value, field, b.length);
  }

  // ----- a run of fields

  datatype Field = Field(value: nat, width: nat)

  function PushAll(b: Bits, fields: seq<Field>): Bits {
    if fields == [] then b
    else Push(PushAll(b, fields[..|fields| - 1]), fields[|fields| - 1].value, fields[|fields| - 1].width)
  }

  /** The values read when fields of these widths are taken off, last width first. */
  function PopAll(b: Bits, widths: seq<nat>): (r: (seq<nat>, Bits))
    requires Width(widths) <= b.length
    decreases |widths|
  {
    if widths == [] then ([], b)
    else
      var w := widths[|widths| - 1];
      var (values, rest) := PopAll(Pop(b, w), widths[..|widths| - 1]);
      ([Top(b, w)] + values, rest)
  }

  function Width(widths: seq<nat>): nat {
    if widths == [] then 0 else Width(widths[..|widths| - 1]) + widths[|widths| - 1]
  }

  function Widths(fields: seq<Field>): (w: seq<nat>)
    ensures |w| == |fields|
  {
    seq(|fields|, i requires 0 <= i < |fields| => fields[i].width)
  }

  function Reversed(fields: seq<Field>): (r: seq<nat>)
    ensures |r| == |fields|
  {
    seq(|fields|, i requires 0 <= i < |fields| => fields[|fields| - 1 - i].value)
  }

  /** The stream is a stack: taking the same widths off in reverse order gives the fields in
      reverse order and leaves what was there before. */
  lemma {:induction false} StreamIsStack(b: Bits, fields: seq<Field>)
    requires Proper(b)
    requires forall i :: 0 <= i < |fields| ==> fields[i].value < Pow2(fields[i].width)
    ensures Proper(PushAll(b, fields))
    ensures PushAll(b, fields).length == b.length + Width(Widths(fields))
    ensures PopAll(PushAll(b, fields), Widths(fields)) == (Reversed(fields), b)
  {
    if fields == [] {
      assert Widths(fields) == [] && Reversed(fields) == [];
    } else {
      var front, last := fields[..|fields| - 1], fields[|fields| - 1];
      StreamIsStack(b, front);
      PopUndoesPush(PushAll(b, front), last.value, last.width);
      PushProper(PushAll(b, front), last.value, last.width);
      assert Widths(fields)[..|fields| - 1] == Widths(front);
      assert Reversed(fields) == [last.value] + Reversed(front);
    }
  }

  // ----- writing

  const REGISTER: nat := 64

  /** What a flush leaves in the register, put behind the bytes it has written. */
  lemma FlushedBytes(front: seq<Byte>, register: seq<Byte>, n: nat, k: nat, written: seq<Byte>, c: nat)
    requires n <= |register| && k == 8 * |front| && written == front + register[..n] && c == LE(register)
    ensures LE(written) + Shl(Shr(c, 8 * n), k + 8 * n) == LE(front) + Shl(c, k)
  {
    LowBytes(register, n, 8 * n, c);
    LEParts(written, front, register[..n], k);
    RegisterParts(c, 8 * n, k);
  }

  lemma LowBytes(register: seq<Byte>, n: nat, m: nat, c: nat)
    requires n <= |register| && m == 8 * n && c == LE(register)
    ensures LE(register[..n]) == Low(c, m)
  {
    LESplit(register, n);
  }

  lemma RegisterParts(c: nat, n: nat, k: nat)
    ensures Shl(Low(c, n), k) + Shl(Shr(c, n), k + n) == Shl(c, k)
  {
    ShiftBack(c, n);
    ShlShl(Shr(c, n), n, k);
    ShlAdd(Low(c, n), Shl(Shr(c, n), n), k);
  }

  /** `bitContainer |= (value & BIT_mask[nbBits]) << bitPos` on a 64-bit register */
  function WithField(container: nat, value: nat, bitPos: nat, nbBits: nat): nat {
    BitOr(container, Low(Shl(Low(value, nbBits), bitPos), REGISTER))
  }

  /** Or-ing a field into the register adds it above the bits already there. */
  lemma FieldFits(container: nat, value: nat, bitPos: nat, nbBits: nat)
    requires container < Pow2(bitPos) && nbBits + bitPos < REGISTER
    ensures WithField(container, value, bitPos, nbBits) == container + Shl(Low(value, nbBits), bitPos)
    ensures WithField(container, value, bitPos, nbBits) < Pow2(bitPos + nbBits)
  {
    var field := Low(value, nbBits);
    LowBelow(value, nbBits);
    ShlBelow(field, nbBits, bitPos);
    Pow2Strict(bitPos + nbBits, REGISTER);
    LowOfSmall(Shl(field, bitPos), REGISTER);
    OrAbove(container, field, bitPos);
  }

  lemma ContentWithField(low: nat, container: nat, container': nat, field: nat, bitPos: nat, k: nat, b: Bits, n: nat)
    requires b.value == low + Shl(container, k) && b.length == k + bitPos
    requires container' == container + Shl(field, bitPos)
    ensures Push(b, field, n).value == low + Shl(container', k)
  {
    ShlAdd(container, Shl(field, bitPos), k);
    ShlShl(field, bitPos, k);
  }

  /** The first byte that a flush leaves behind holds what is left in the register. */
  lemma ByteLeft(register: seq<Byte>, nb: nat, n: nat)
    requires nb < |register| && n < 8 && Shr(LE(register), 8 * nb) < Pow2(n)
    ensures register[nb] == Shr(LE(register), 8 * nb)
  {
    LESplit(register, nb);
    assert LE(register[nb..]) == register[nb] + 256 * LE(register[nb..][1..]);
    Pow2Monotone(n, 7);
    assert Pow2(7) == 128;
  }

  /** The bytes of a closed stream: the content with a 1 on top, padded to whole bytes. */
  ghost predicate IsStream(bytes: seq<Byte>, content: Bits) {
    && |bytes| == content.length / 8 + 1
    && LE(bytes) == content.value + Pow2(content.length)
  }

  lemma StreamBytes(front: seq<Byte>, bytes: seq<Byte>, content: Bits, container: nat, bitPos: nat)
    requires bitPos < 8 && container < Pow2(bitPos)
    requires content.length + 1 == 8 * |front| + bitPos
    requires Push(content, 1, 1).value == LE(front) + Shl(container, 8 * |front|)
    requires container < 256 && bytes == if bitPos > 0 then front + [container] else front
    ensures IsStream(bytes, content)
  {
    ShlIsTimes(1, content.length);
    if bitPos > 0 {
      LEParts(bytes, front, [container], 8 * |front|);
      LEOne(container);
    } else {
      ShlIsTimes(0, 8 * |front|);
    }
  }

  /** `BIT_CStream_t` */
  class CStream {
    const dst: array<Byte>
    const endPtr: int
    var bitContainer: nat
    var bitPos: nat
    var ptr: nat
    /** Everything added so far. */
    ghost var content: Bits
    /** A safe flush had to stop at the end of the buffer. */
    ghost var clipped: bool

    /** `BIT_initCStream`, which reports an error when the buffer has no more than 8 bytes. */
    constructor (dst: array<Byte>)
      ensures this.dst == dst && endPtr == dst.Length - 8
      ensures content == EMPTY && !clipped && bitPos == ptr == bitContainer == 0
      ensures endPtr > 0 ==> Valid()
    {
      this.dst, endPtr := dst, dst.Length - 8;
      bitContainer, bitPos, ptr := 0, 0, 0;
      content, clipped := EMPTY, false;
    }

    ghost predicate Valid()
      reads this, dst
    {
      && 0 < endPtr == dst.Length - 8 && ptr <= endPtr
      && bitPos < REGISTER && bitContainer < Pow2(bitPos)
      && Proper(content)
      && (!clipped ==> Stored())
      && (clipped ==> ptr == endPtr && content.length >= 8 * endPtr)
    }

    /** The bytes written and the bits in the register are the content. */
    ghost predicate Stored()
      requires ptr <= dst.Length
      reads this, dst
    {
      && content.value == LE(dst[..ptr]) + Shl(bitContainer, 8 * ptr)
      && content.length == 8 * ptr + bitPos
    }

    /** `BIT_addBits` */
    method AddBits(value: nat, nbBits: nat)
      requires Valid()
      requires nbBits < 32 && nbBits + bitPos < REGISTER
      modifies this`bitContainer, this`bitPos, this`content
      ensures Valid() && bitPos == old(bitPos) + nbBits
      ensures content == Push(old(content), Low(value, nbBits), nbBits)
    {
      ghost var field, before := Low(value, nbBits), bitContainer;
      LowBelow(value, nbBits);
      PushProper(content, field, nbBits);
      FieldFits(bitContainer, value, bitPos, nbBits);
      bitContainer := WithField(bitContainer, value, bitPos, nbBits);
      if !clipped {
        ContentWithField(LE(dst[..ptr]), before, bitContainer, field, bitPos, 8 * ptr, content, nbBits);
      }
      bitPos := bitPos + nbBits;
      content := Push(content, field, nbBits);
    }

    /** `BIT_flushBitsFast`, which relies on the buffer being large enough. */
    method FlushBitsFast()
      requires Valid() && ptr + bitPos / 8 <= endPtr
      modifies this`bitContainer, this`bitPos, this`ptr, dst
      ensures Valid() && bitPos == old(bitPos) % 8 && ptr == old(ptr) + old(bitPos) / 8
    {
      var nbBytes := bitPos / 8;
      WriteRegister();
      Flushed(nbBytes);
      ptr := ptr + nbBytes;
      bitPos := bitPos % 8;
      bitContainer := Shr(bitContainer, nbBytes * 8);
    }

    /** `BIT_flushBits`, which stops at the end of the buffer. */
    method FlushBits()
      requires Valid()
      modifies this`bitContainer, this`bitPos, this`ptr, this`clipped, dst
      ensures Valid() && bitPos == old(bitPos) % 8
      ensures !clipped <==> !old(clipped) && old(ptr) + old(bitPos) / 8 <= endPtr
      ensures !clipped ==> dst[ptr] == bitContainer
    {
      var nbBytes := bitPos / 8;
      WriteRegister();
      Flushed(nbBytes);
      clipped := clipped || ptr + nbBytes > endPtr;
      ptr := ptr + nbBytes;
      if ptr > endPtr {
        ptr := endPtr;
      }
      bitPos := bitPos % 8;
      bitContainer := Shr(bitContainer, nbBytes * 8);
    }

    /** `MEM_writeLEST(ptr, bitContainer)` */
    method WriteRegister()
      requires Valid()
      modifies dst
      ensures Valid() && LE(dst[ptr..ptr + 8]) == bitContainer && dst[..ptr] == old(dst[..ptr])
    {
      Pow2Strict(bitPos, REGISTER);
      WriteLE64(dst, ptr, bitContainer);
    }

    /** With the register written out, its whole bytes belong to the buffer. */
    lemma Flushed(nbBytes: nat)
      requires Valid() && LE(dst[ptr..ptr + 8]) == bitContainer && nbBytes == bitPos / 8
      ensures Shr(bitContainer, nbBytes * 8) < Pow2(bitPos % 8)
      ensures !clipped ==>
                content.value == LE(dst[..ptr + nbBytes]) + Shl(Shr(bitContainer, nbBytes * 8), 8 * (ptr + nbBytes))
      ensures dst[ptr + nbBytes] == Shr(bitContainer, nbBytes * 8)
    {
      hide LE, Shl, Shr, Pow2, Proper;
      ShrSmall(bitContainer, bitPos % 8, nbBytes * 8);
      var front, register := dst[..ptr], dst[ptr..ptr + 8];
      FlushedBytes(front, register, nbBytes, 8 * ptr, dst[..ptr + nbBytes], bitContainer);
      ByteLeft(register, nbBytes, bitPos % 8);
    }

    /** `BIT_closeCStream`: adds the end mark; 0 when the stream did not fit. */
    method Close() returns (size: nat)
      requires Valid() && bitPos + 1 < REGISTER
      modifies this, dst
      ensures size == 0 <==> (old(content).length + 1) / 8 >= endPtr
      ensures size != 0 ==> size < dst.Length && IsStream(dst[..size], old(content))
    {
      AddBits(1, 1);
      assert Low(1, 1) == 1;
      FlushBits();
      if ptr >= endPtr {
        return 0;
      }
      size := ptr + if bitPos > 0 then 1 else 0;
      StreamBytes(dst[..ptr], dst[..size], old(content), bitContainer, bitPos);
    }
  }

  // ----- reading

  datatype Status = Unfinished | EndOfBuffer | Completed | Overflow

  /** `BIT_lookBits`: shifts the consumed bits out of the register, then the field down. */
  function LookBits(container: nat, bitsConsumed: nat, n: nat): nat {
    Shr(Shr(Low(Shl(container, bitsConsumed % 64), REGISTER), 1), (63 - n) % 64)
  }

  /** `BIT_lookBitsFast` */
  function LookBitsFast(container: nat, bitsConsumed: nat, n: nat): nat {
    Shr(Low(Shl(container, bitsConsumed % 64), REGISTER), (64 - n) % 64)
  }

  lemma ShiftedOut(c: nat, k: nat, n: nat)
    requires k + n <= REGISTER
    ensures Shr(Low(Shl(c, k), REGISTER), REGISTER - n) == Shr(Low(c, REGISTER - k), REGISTER - k - n)
  {
    LowOfShl(c, k, REGISTER - k);
    var y := Low(c, REGISTER - k);
    ShrShr(Shl(y, k), k, REGISTER - k - n);
    ShlThenShr(y, k);
  }

  lemma LookIsShift(c: nat, k: nat, n: nat)
    requires n < REGISTER
    ensures LookBits(c, k, n) == Shr(Low(Shl(c, k % 64), REGISTER), REGISTER - n)
    ensures n >= 1 ==> LookBitsFast(c, k, n) == LookBits(c, k, n)
  {
    TwoShifts(Low(Shl(c, k % 64), REGISTER), n);
  }

  lemma TwoShifts(x: nat, n: nat)
    requires n < REGISTER
    ensures Shr(Shr(x, 1), (63 - n) % 64) == Shr(x, REGISTER - n)
    ensures n >= 1 ==> (64 - n) % 64 == REGISTER - n
  {
    ShrShr(x, 1, 63 - n);
  }

  lemma LookBitsBelow(c: nat, k: nat, n: nat)
    requires n < REGISTER
    ensures LookBits(c, k, n) < Pow2(n)
    ensures n >= 1 ==> LookBitsFast(c, k, n) == LookBits(c, k, n)
  {
    hide LookBits, LookBitsFast;
    LookIsShift(c, k, n);
    LowBelow(Shl(c, k % 64), REGISTER);
    ShrSmall(Low(Shl(c, k % 64), REGISTER), n, REGISTER - n);
  }

  lemma NothingToLookAt(c: nat)
    ensures Shr(Low(c, REGISTER), REGISTER) == 0
  {
    LowBelow(c, REGISTER);
    ShrSmall(Low(c, REGISTER), 0, REGISTER);
  }

  lemma LowIsZero(c: nat)
    ensures Shr(Low(c, 0), 0) == 0
  {
  }

  lemma LookBitsValue(c: nat, k: nat, n: nat)
    requires n < REGISTER && k + n <= REGISTER
    ensures LookBits(c, k, n) == Shr(Low(c, REGISTER - k), REGISTER - k - n)
  {
    hide LookBits, Shr, Shl;
    LookIsShift(c, k, n);
    if k < REGISTER {
      ShiftedOut(c, k, n);
    } else {
      NothingToLookAt(Shl(c, 0));
      LowIsZero(c);
    }
  }

  /** The register holds 64 of the bits of the stream, those above the lowest 8 * ptr. */
  lemma RegisterWindow(src: seq<Byte>, ptr: nat, hi: nat, c: nat, k: nat)
    requires ptr <= hi <= |src| && k == 8 * ptr
    requires hi == ptr + 8 || (hi == |src| && hi <= ptr + 8)
    requires c == LE(src[ptr..hi])
    ensures c == Low(Shr(LE(src), k), REGISTER)
  {
    LESplit(src, ptr);
    var rest := src[ptr..];
    if hi == ptr + 8 {
      LowBytes(rest, 8, 64, LE(rest));
      assert rest[..8] == src[ptr..hi];
    } else {
      assert rest == src[ptr..hi];
      LEBound(rest);
      Pow2Monotone(8 * |rest|, 64);
      LowOfSmall(c, REGISTER);
    }
  }

  /** Taking the next field out of the register takes the top off the unread bits. */
  lemma RegisterTop(w: nat, c: nat, k: nat, consumed: nat, n: nat)
    requires c == Low(Shr(w, k), REGISTER)
    requires n < REGISTER && consumed + n <= REGISTER
    ensures LookBits(c, consumed, n) == Shr(Low(w, k + REGISTER - consumed), k + REGISTER - consumed - n)
  {
    LookBitsValue(c, consumed, n);
    LowLow(Shr(w, k), REGISTER, REGISTER - consumed);
    LowOfShr(w, k, REGISTER - consumed);
    ShrShr(Low(w, k + (REGISTER - consumed)), k, REGISTER - consumed - n);
  }

  /** `BIT_DStream_t`; `start` is offset 0 and `limitPtr` offset 8. */
  class DStream {
    const src: seq<Byte>
    var bitContainer: nat
    var bitsConsumed: nat
    var ptr: nat

    ghost predicate Valid()
      reads this
    {
      && |src| >= 1 && (ptr == 0 || ptr + 8 <= |src|)
      && bitContainer == LE(src[ptr..if ptr + 8 <= |src| then ptr + 8 else |src|])
    }

    /** Bits not yet consumed; negative once the reader has run past the start. */
    function Remaining(): int
      reads this
    {
      8 * ptr + REGISTER - bitsConsumed
    }

    /** The unread bits. */
    ghost function Unread(): Bits
      requires Remaining() >= 0
      reads this
    {
      Bits(Low(LE(src), Remaining()), Remaining())
    }

    /** The register is as full as the stream allows. */
    predicate Loaded()
      reads this
    {
      bitsConsumed <= 8 || ptr == 0
    }

    /** `BIT_initDStream` past its error tests. */
    constructor (src: seq<Byte>)
      requires |src| >= 1 && src[|src| - 1] != 0
      ensures this.src == src && Valid() && Loaded()
      ensures LE(src) >= 1 && Remaining() == Log2(LE(src))
    {
      EndMark(src);
      this.src := src;
      if |src| >= 8 {
        ptr := |src| - 8;
        var c := ReadLE(src, |src| - 8, |src|);
        bitContainer := c;
        bitsConsumed := 8 - Log2(src[|src| - 1]);
      } else {
        ptr := 0;
        var c := ReadLE(src, 0, |src|);
        bitContainer := c;
        bitsConsumed := 8 - Log2(src[|src| - 1]) + (8 - |src|) * 8;
      }
    }

    /** `BIT_readBits` */
    method ReadBits(n: nat) returns (value: nat)
      requires Valid() && n < 32
      modifies this`bitsConsumed
      ensures Valid() && Remaining() == old(Remaining()) - n
      ensures value < Pow2(n)
      ensures old(bitsConsumed) + n <= REGISTER ==> value == Top(old(Unread()), n) && Unread() == Pop(old(Unread()), n)
    {
      value := LookBits(bitContainer, bitsConsumed, n);
      LookBitsBelow(bitContainer, bitsConsumed, n);
      TakesTop(n);
      bitsConsumed := bitsConsumed + n;
    }

    /** `BIT_readBitsFast` */
    method ReadBitsFast(n: nat) returns (value: nat)
      requires Valid() && 1 <= n < 32
      modifies this`bitsConsumed
      ensures Valid() && Remaining() == old(Remaining()) - n
      ensures value < Pow2(n)
      ensures old(bitsConsumed) + n <= REGISTER ==> value == Top(old(Unread()), n) && Unread() == Pop(old(Unread()), n)
    {
      value := LookBitsFast(bitContainer, bitsConsumed, n);
      LookBitsBelow(bitContainer, bitsConsumed, n);
      TakesTop(n);
      bitsConsumed := bitsConsumed + n;
    }

    lemma TakesTop(n: nat)
      requires Valid() && n < 32
      ensures bitsConsumed + n <= REGISTER ==>
                && Remaining() >= n
                && LookBits(bitContainer, bitsConsumed, n) == Top(Unread(), n)
                && Pop(Unread(), n) == Bits(Low(LE(src), Remaining() - n), Remaining() - n)
    {
      if bitsConsumed + n <= REGISTER {
        RegisterWindow(src, ptr, if ptr + 8 <= |src| then ptr + 8 else |src|, bitContainer, 8 * ptr);
        RegisterTop(LE(src), bitContainer, 8 * ptr, bitsConsumed, n);
        LowLow(LE(src), Remaining(), Remaining() - n);
      }
    }

    /** `BIT_reloadDStream`: never reads before the start, and reports completion exactly when the
        last bit has been taken. */
    method Reload() returns (status: Status)
      requires Valid()
      modifies this`bitContainer, this`bitsConsumed, this`ptr
      ensures Valid() && Remaining() == old(Remaining())
      ensures status == Overflow <==> old(bitsConsumed) > REGISTER
      ensures status == Overflow ==> bitsConsumed == old(bitsConsumed)
      ensures status != Overflow ==> Loaded() && bitsConsumed <= REGISTER
      ensures status == Unfinished ==> bitsConsumed <= 7
      ensures status == Completed <==> Remaining() == 0 && old(bitsConsumed) <= REGISTER
    {
      if bitsConsumed > REGISTER {
        return Overflow;
      }
      if ptr >= 8 {
        ptr := ptr - bitsConsumed / 8;
        bitsConsumed := bitsConsumed % 8;
        bitContainer := ReadLE(src, ptr, ptr + 8);
        return Unfinished;
      }
      if ptr == 0 {
        return if bitsConsumed < REGISTER then EndOfBuffer else Completed;
      }
      var nbBytes := bitsConsumed / 8;
      status := Unfinished;
      if ptr < nbBytes {
        nbBytes := ptr;
        status := EndOfBuffer;
      }
      ptr := ptr - nbBytes;
      bitsConsumed := bitsConsumed - nbBytes * 8;
      bitContainer := ReadLE(src, ptr, ptr + 8);
    }
  }

  lemma ByteLog(b: Byte)
    requires b != 0
    ensures Log2(b) <= 7
  {
    assert Pow2(8) == 256;
    if Log2(b) > 7 {
      Pow2Monotone(8, Log2(b));
    }
  }

  lemma TopByte(w: nat, low: nat, last: nat, k: nat)
    requires last >= 1 && low < Pow2(k) && w == low + Shl(last, k)
    ensures w >= 1 && Log2(w) == Log2(last) + k
  {
    ShlIsTimes(last, k);
    MarkPosition(last, Pow2(Log2(last)), Pow2(k), low);
    Pow2Add(Log2(last), k);
    Log2Unique(w, Log2(last) + k);
  }

  /** The end mark is the highest bit of the stream. */
  lemma EndMark(src: seq<Byte>)
    requires |src| >= 1 && src[|src| - 1] != 0
    ensures LE(src) >= 1 && Log2(LE(src)) == 8 * (|src| - 1) + Log2(src[|src| - 1])
    ensures Log2(src[|src| - 1]) <= 7
  {
    var n, last := |src| - 1, src[|src| - 1];
    ByteLog(last);
    LEParts(src, src[..n], [last], 8 * n);
    LEOne(last);
    TopByte(LE(src), LE(src[..n]), last, 8 * n);
  }

  lemma MarkPosition(last: nat, high: nat, p: nat, low: nat)
    requires high <= last < 2 * high && low < p
    ensures high * p <= low + last * p < 2 * (high * p)
  {
    MulMonotone(high, last, p);
    MulMonotone(last + 1, 2 * high, p);
    assert (last + 1) * p == last * p + p;
    assert (2 * high) * p == 2 * (high * p);
  }

  /** What a reader finds in the bytes of a closed stream: the content, and no more. */
  lemma StreamContent(bytes: seq<Byte>, content: Bits)
    requires Proper(content) && IsStream(bytes, content)
    ensures |bytes| >= 1 && bytes[|bytes| - 1] != 0
    ensures Log2(LE(bytes)) == content.length && Low(LE(bytes), content.length) == content.value
  {
    var n := |bytes| - 1;
    Log2Unique(LE(bytes), content.length);
    ShlIsTimes(1, content.length);
    StackedField(content.value, 1, content.length);
    if bytes[n] == 0 {
      LEParts(bytes, bytes[..n], [bytes[n]], 8 * n);
      LEOne(bytes[n]);
      ShlIsTimes(0, 8 * n);
      Pow2Monotone(8 * n, content.length);
    }
  }

  // ----- a run of the writer, then of the reader

  /** What is left of the fields when their values are cut to their widths. */
  function Masked(fields: seq<Field>): (m: seq<Field>)
    ensures |m| == |fields| && Widths(m) == Widths(fields)
  {
    seq(|fields|, i requires 0 <= i < |fields| => Field(Low(fields[i].value, fields[i].width), fields[i].width))
  }

  lemma MaskedFit(fields: seq<Field>)
    ensures forall i :: 0 <= i < |fields| ==> Masked(fields)[i].value < Pow2(Masked(fields)[i].width)
  {
    hide Low, Pow2;
    forall i | 0 <= i < |fields|
      ensures Masked(fields)[i].value < Pow2(Masked(fields)[i].width)
    {
      LowBelow(fields[i].value, fields[i].width);
    }
  }

  lemma PushNext(fields: seq<Field>, i: nat)
    requires i < |fields|
    ensures PushAll(EMPTY, Masked(fields[..i + 1]))
         == Push(PushAll(EMPTY, Masked(fields[..i])), Low(fields[i].value, fields[i].width), fields[i].width)
  {
    hide Low, Push;
    assert Masked(fields[..i + 1])[..i] == Masked(fields[..i]);
  }

  /** Adds the fields one after the other, flushing after each, and closes the stream. */
  method WriteFields(dst: array<Byte>, fields: seq<Field>) returns (size: nat)
    requires forall i :: 0 <= i < |fields| ==> fields[i].width < 32
    modifies dst
    ensures var content := PushAll(EMPTY, Masked(fields));
            && (size == 0 <==> dst.Length <= 8 || (content.length + 1) / 8 >= dst.Length - 8)
            && (size != 0 ==> size < dst.Length && IsStream(dst[..size], content))
  {
    hide Low, Push, PushAll, IsStream;
    var bitC := new CStream(dst);
    if dst.Length <= 8 {
      return 0;
    }
    NothingPushed();
    for i := 0 to |fields|
      invariant bitC.Valid() && bitC.bitPos <= 7 && bitC.content == PushAll(EMPTY, Masked(fields[..i]))
    {
      PushNext(fields, i);
      bitC.AddBits(fields[i].value, fields[i].width);
      bitC.FlushBits();
    }
    assert fields[..|fields|] == fields;
    size := bitC.Close();
  }

  lemma NothingPushed()
    ensures PushAll(EMPTY, Masked([])) == EMPTY
  {
  }

  lemma PopNext(b: Bits, widths: seq<nat>, left: nat)
    requires left < |widths| && Width(widths[..left + 1]) <= b.length
    ensures Width(widths[..left + 1]) == Width(widths[..left]) + widths[left]
    ensures PopAll(b, widths[..left + 1]).0 == [Top(b, widths[left])] + PopAll(Pop(b, widths[left]), widths[..left]).0
  {
    hide Top, Pop, Low;
    assert widths[..left + 1][..left] == widths[..left];
    PopLength(b, widths[left]);
  }

  lemma PopLength(b: Bits, n: nat)
    requires n <= b.length
    ensures Pop(b, n).length == b.length - n
  {
  }

  /** One field, and a refill of the register. */
  method TakeField(bitD: DStream, n: nat) returns (value: nat, status: Status)
    requires bitD.Valid() && bitD.Loaded() && n < 32 && bitD.Remaining() >= n
    modifies bitD
    ensures bitD.Valid() && bitD.Loaded() && bitD.Remaining() == old(bitD.Remaining()) - n
    ensures value == Top(old(bitD.Unread()), n) && bitD.Unread() == Pop(old(bitD.Unread()), n)
    ensures status != Overflow && (status == Completed <==> bitD.Remaining() == 0)
  {
    hide Top, Pop, LE, Low, Pow2, DStream.Valid;
    value := bitD.ReadBits(n);
    status := bitD.Reload();
  }

  /** The stream is reported to be used up exactly when no bits are left. */
  ghost predicate Reported(statuses: seq<Status>, widths: seq<nat>) {
    && |statuses| <= |widths|
    && forall i :: 0 <= i < |statuses| ==>
         && statuses[i] != Overflow
         && (statuses[i] == Completed <==> Width(widths[..|widths| - 1 - i]) == 0)
  }

  lemma NothingReported(widths: seq<nat>)
    ensures Reported([], widths)
  {
  }

  lemma ReportedNext(statuses: seq<Status>, widths: seq<nat>, left: nat, status: Status)
    requires Reported(statuses, widths) && left + 1 + |statuses| == |widths|
    requires status != Overflow && (status == Completed <==> Width(widths[..left]) == 0)
    ensures Reported(statuses + [status], widths)
  {
    hide Width;
  }

  /** Reads fields of these widths off a stream, the last first, refilling the register after each. The
      stream reports that it is used up exactly when no bits are left. */
  method ReadFields(bytes: seq<Byte>, widths: seq<nat>, ghost content: Bits)
    returns (values: seq<nat>, statuses: seq<Status>)
    requires Proper(content) && IsStream(bytes, content) && Width(widths) == content.length
    requires forall i :: 0 <= i < |widths| ==> widths[i] < 32
    ensures values == PopAll(content, widths).0
    ensures |statuses| == |widths| && Reported(statuses, widths)
  {
    StreamContent(bytes, content);
    hide Width, PopAll, Top, Pop, IsStream, LE, Low, DStream.Valid, DStream.Loaded, Reported, Proper, Log2;
    var bitD := new DStream(bytes);
    assert bitD.Unread() == content;
    NothingReported(widths);
    values, statuses := [], [];
    var left := |widths|;
    assert widths[..left] == widths;
    while left > 0
      invariant 0 <= left <= |widths| && |statuses| == |widths| - left
      invariant bitD.Valid() && bitD.Loaded() && bitD.Remaining() == Width(widths[..left])
      invariant values + PopAll(bitD.Unread(), widths[..left]).0 == PopAll(content, widths).0
      invariant Reported(statuses, widths)
    {
      left := left - 1;
      PopNext(bitD.Unread(), widths, left);
      var value, status := TakeField(bitD, widths[left]);
      ReportedNext(statuses, widths, left, status);
      ghost var others := PopAll(bitD.Unread(), widths[..left]).0;
      assert values + ([value] + others) == (values + [value]) + others;
      values, statuses := values + [value], statuses + [status];
    }
    NothingPopped(bitD.Unread());
  }

  lemma NothingPopped(b: Bits)
    ensures Width([]) == 0 && PopAll(b, []).0 == []
  {
  }

  /** Whatever fields are written, in a buffer that has room, come back in reverse order, and the reader knows
      when it has read the last bit. */
  method RoundTrip(dst: array<Byte>, fields: seq<Field>) returns (size: nat, values: seq<nat>, statuses: seq<Status>)
    requires forall i :: 0 <= i < |fields| ==> fields[i].width < 32
    modifies dst
    ensures size == 0 <==> dst.Length <= 8 || (Width(Widths(fields)) + 1) / 8 >= dst.Length - 8
    ensures size != 0 ==>
              values == Reversed(Masked(fields)) && |statuses| == |fields| && Reported(statuses, Widths(fields))
  {
    hide IsStream, PushAll, PopAll, Width, Pow2, Reported;
    MaskedFit(fields);
    EmptyIsProper();
    StreamIsStack(EMPTY, Masked(fields));
    size := WriteFields(dst, fields);
    values, statuses := [], [];
    if size != 0 {
      values, statuses := ReadFields(dst[..size], Widths(fields), PushAll(EMPTY, Masked(fields)));
    }
  }

  lemma EmptyIsProper()
    ensures Proper(EMPTY)
  {
  }
}
