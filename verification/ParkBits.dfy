/** The big-endian bit string that the stubs of a park are packed into. */
module ParkBits {
  import opened Powers
  import opened Bytes
  import opened BitStream

  const WORD_BITS: nat := 64

  /** The number that 64-bit words spell, most significant word first. */
  function Words(values: seq<nat>): nat {
    if values == [] then 0 else Shl(Words(values[..|values| - 1]), 64) + values[|values| - 1]
  }

  /** The number that bytes spell, most significant byte first. */
  function BE(s: seq<Byte>): nat {
    if s == [] then 0 else 256 * BE(s[..|s| - 1]) + s[|s| - 1]
  }

  /** n bytes of a number, most significant byte first. */
  function BytesBE(x: nat, n: nat): (s: seq<Byte>)
    ensures |s| == n
  {
    if n == 0 then [] else BytesBE(x / 256, n - 1) + [x % 256]
  }

  /** A field behind the bits already there. */
  function Behind(b: Bits, field: nat, n: nat): Bits {
    Bits(Shl(b.value, n) + field, b.length + n)
  }

  lemma BehindProper(b: Bits, field: nat, n: nat)
    requires Proper(b) && field < Pow2(n)
    ensures Proper(Behind(b, field, n))
  {
    ShlBelow(b.value, b.length, n);
  }

  /** Splitting a field and putting its parts behind one after the other is putting it behind whole. */
  lemma BehindSplit(b: Bits, field: nat, n: nat, free: nat)
    requires free <= n
    ensures Behind(Behind(b, Shr(field, n - free), free), Low(field, n - free), n - free) == Behind(b, field, n)
  {
    ShlAdd(Shl(b.value, free), Shr(field, n - free), n - free);
    ShlShl(b.value, free, n - free);
    ShiftBack(field, n - free);
  }

  class ParkBits {
    var values: seq<nat>
    var lastSize: nat

    constructor ()
      ensures Valid() && values == [] && Content() == EMPTY
    {
      values, lastSize := [], 0;
    }

    ghost predicate Valid()
      reads this
    {
      && (values == [] ==> lastSize == 0) && lastSize <= WORD_BITS
      && (forall i :: 0 <= i < |values| ==> values[i] < Pow2(WORD_BITS))
      && (values != [] ==> values[|values| - 1] < Pow2(lastSize))
    }

    function Size(): nat
      reads this
    {
      if values == [] then 0 else (|values| - 1) * WORD_BITS + lastSize
    }

    /** The bit string as a number and its length. */
    ghost function Content(): Bits
      reads this
    {
      if values == [] then EMPTY
      else Behind(Bits(Words(values[..|values| - 1]), (|values| - 1) * WORD_BITS), values[|values| - 1], lastSize)
    }

    /** `AppendValue`, of up to 128 bits in two parts */
    method AppendValue(value: nat, length: nat)
      requires Valid() && length <= 2 * WORD_BITS && value < Pow2(length)
      modifies this
      ensures Valid() && Content() == Behind(old(Content()), value, length)
      ensures length > 0 ==> lastSize > 0
    {
      hide Shl, Shr, Low, Pow2, Behind, ParkBits.Content;
      if length > WORD_BITS {
        ghost var before := Content();
        BehindSplit(before, value, length, length - WORD_BITS);
        ShrSmall(value, length - WORD_BITS, WORD_BITS);
        LowBelow(value, WORD_BITS);
        DoAppendValue(Shr(value, WORD_BITS), length - WORD_BITS);
        DoAppendValue(Low(value, WORD_BITS), WORD_BITS);
      } else {
        DoAppendValue(value, length);
      }
    }

    /** `DoAppendValue` */
    method DoAppendValue(value: nat, length: nat)
      requires Valid() && length <= WORD_BITS && value < Pow2(length)
      modifies this
      ensures Valid() && Content() == Behind(old(Content()), value, length)
      ensures length > 0 ==> lastSize > 0
    {
      hide Shl, Shr, Low, Pow2, Words, Behind;
      ghost var before := Content();
      if values == [] || lastSize == WORD_BITS {
        NewWord(values, lastSize, value, length);
        Pow2Monotone(length, WORD_BITS);
        values := values + [value];
        lastSize := length;
        assert values[..|values| - 1] == old(values);
        return;
      }
      var last, free := |values| - 1, WORD_BITS - lastSize;
      ghost var front := Bits(Words(values[..last]), last * WORD_BITS);
      if lastSize == 0 && length == 64 {
        WholeWord(front, values[last], value);
        values := values[last := value];
        lastSize := length;
        assert values[..last] == old(values[..last]);
      } else if length <= free {
        GrownWord(front, values[last], lastSize, value, length);
        values := values[last := Shl(values[last], length) + value];
        lastSize := lastSize + length;
        assert values[..last] == old(values[..last]);
      } else {
        SplitValue(value, length);
      }
    }

    /** The last case of `DoAppendValue`: the value fills the last word and goes on in a new one. */
    method SplitValue(value: nat, length: nat)
      requires Valid() && values != [] && lastSize < WORD_BITS && WORD_BITS < lastSize + length && length <= WORD_BITS
      requires value < Pow2(length)
      modifies this
      ensures Valid() && Content() == Behind(old(Content()), value, length) && lastSize > 0
    {
      hide Shl, Shr, Low, Pow2, Words, Behind;
      ghost var before := Content();
      var last, free := |values| - 1, WORD_BITS - lastSize;
      ghost var front := Bits(Words(values[..last]), last * WORD_BITS);
      var prefix, suffix := Shr(value, length - free), Low(value, length - free);
      ShrSmall(value, free, length - free);
      GrownWord(front, values[last], lastSize, prefix, free);
      BehindSplit(before, value, length, free);
      LowBelow(value, length - free);
      Pow2Monotone(length - free, WORD_BITS);
      values := values[last := Shl(values[last], free) + prefix];
      lastSize := WORD_BITS;
      assert values[..last] == old(values[..last]);
      assert Content() == Behind(before, prefix, free);
      NewWord(values, lastSize, suffix, length - free);
      ghost var full := values;
      values := values + [suffix];
      lastSize := length - free;
      assert values[..|values| - 1] == full;
    }

    /** `ToBytes`: the bits from the top, the last byte padded with zeros. */
    method ToBytes() returns (bytes: seq<Byte>)
      requires Valid() && (values != [] ==> lastSize > 0)
      ensures |bytes| == (Size() + 7) / 8
      ensures BE(bytes) == Shl(Content().value, 8 * |bytes| - Size())
    {
      hide Shl, Pow2, BE;
      bytes := [];
      NoBytes();
      if values == [] {
        return;
      }
      var last := |values| - 1;
      for i := 0 to last
        invariant |bytes| == 8 * i && BE(bytes) == Words(values[..i])
      {
        WordBytes(values, i, bytes);
        bytes := bytes + BytesBE(values[i], 8);
      }
      var tmp := BytesBE(Shl(values[last], WORD_BITS - lastSize), 8);
      LastWord(Words(values[..last]), bytes, values[last], lastSize);
      bytes := bytes + tmp[..(lastSize + 7) / 8];
    }
  }

  lemma NoBytes()
    ensures BE([]) == 0 && Words([]) == 0 && Shl(0, 0) == 0
  {
  }

  lemma WordBytes(values: seq<nat>, i: nat, bytes: seq<Byte>)
    requires i < |values| && values[i] < Pow2(64) && BE(bytes) == Words(values[..i])
    ensures BE(bytes + BytesBE(values[i], 8)) == Words(values[..i + 1])
  {
    BEOfBytes(values[i], 8);
    LowOfSmall(values[i], 64);
    BEAppend(bytes, BytesBE(values[i], 8));
    assert values[..i + 1][..i] == values[..i];
  }

  /** The last word's bits, moved to its top, of which only the bytes in use are kept. */
  lemma LastWord(words: nat, bytes: seq<Byte>, last: nat, lastSize: nat)
    requires BE(bytes) == words && 0 < lastSize <= 64 && last < Pow2(lastSize)
    ensures var n := (lastSize + 7) / 8;
            BE(bytes + BytesBE(Shl(last, 64 - lastSize), 8)[..n]) == Shl(Shl(words, lastSize) + last, 8 * n - lastSize)
  {
    hide Shl, BE, BytesBE, Low, Shr, Pow2;
    var n, x := (lastSize + 7) / 8, Shl(last, 64 - lastSize);
    ShlBelow(last, lastSize, 64 - lastSize);
    BEOfBytes(x, 8);
    LowOfSmall(x, 64);
    BEPrefix(BytesBE(x, 8), n);
    PartShift(last, 64 - lastSize, 64 - 8 * n);
    BEAppend(bytes, BytesBE(x, 8)[..n]);
    ShlAdd(Shl(words, lastSize), last, 8 * n - lastSize);
    ShlShl(words, lastSize, 8 * n - lastSize);
  }

  lemma PartShift(x: nat, up: nat, down: nat)
    requires down <= up
    ensures Shr(Shl(x, up), down) == Shl(x, up - down)
  {
    ShlShl(x, up - down, down);
    ShlThenShr(Shl(x, up - down), down);
  }

  lemma {:induction false} BEAppend(a: seq<Byte>, b: seq<Byte>)
    ensures BE(a + b) == Shl(BE(a), 8 * |b|) + BE(b)
  {
    if b == [] {
      assert a + b == a;
    } else {
      var front := b[..|b| - 1];
      assert (a + b)[..|a + b| - 1] == a + front;
      BEAppend(a, front);
      ShlShl(BE(a), 8 * |front|, 8);
      ShlByte(Shl(BE(a), 8 * |front|));
    }
  }

  lemma {:induction false} BEOfBytes(x: nat, n: nat)
    ensures BE(BytesBE(x, n)) == Low(x, 8 * n)
  {
    if n > 0 {
      BEOfBytes(x / 256, n - 1);
      LowByte(x, 8 * (n - 1));
    }
  }

  lemma LowByte(x: nat, k: nat)
    ensures Low(x, k + 8) == 256 * Low(x / 256, k) + x % 256
  {
    assert Pow2(8) == 256;
    ShiftSplit(x, 8, k);
    LowIsMod(x, k + 8);
    LowIsMod(x / 256, k);
  }

  lemma {:induction false} BEBound(s: seq<Byte>)
    ensures BE(s) < Pow2(8 * |s|)
  {
    if s != [] {
      BEBound(s[..|s| - 1]);
      Pow2Add(8 * |s| - 8, 8);
      assert Pow2(8) == 256;
    }
  }

  lemma BEPrefix(s: seq<Byte>, n: nat)
    requires n <= |s|
    ensures BE(s[..n]) == Shr(BE(s), 8 * (|s| - n))
  {
    assert s == s[..n] + s[n..];
    BEAppend(s[..n], s[n..]);
    BEBound(s[n..]);
    StackedField(BE(s[n..]), BE(s[..n]), 8 * (|s| - n));
  }

  // ----- fields of one width

  /** Fields of w bits, one behind the other. */
  function Packed(fields: seq<nat>, w: nat): (b: Bits)
    ensures b.length == |fields| * w
  {
    if fields == [] then EMPTY
    else
      assert |fields| * w == (|fields| - 1) * w + w;
      Behind(Packed(fields[..|fields| - 1], w), fields[|fields| - 1], w)
  }

  /** Field i of a byte string that starts with packed fields. */
  function FieldAt(section: seq<Byte>, i: nat, w: nat): nat
    requires (i + 1) * w <= 8 * |section|
  {
    Low(Shr(BE(section), 8 * |section| - (i + 1) * w), w)
  }

  lemma {:induction false} PackedAt(fields: seq<nat>, w: nat, i: nat)
    requires i < |fields| && forall j :: 0 <= j < |fields| ==> fields[j] < Pow2(w)
    ensures (|fields| - 1 - i) * w >= 0
    ensures Low(Shr(Packed(fields, w).value, (|fields| - 1 - i) * w), w) == fields[i]
  {
    var last := |fields| - 1;
    var front := Packed(fields[..last], w);
    MulMonotone(0, last - i, w);
    hide Shl, Shr, Low, Pow2;
    Stacked(front.value, fields[last], w);
    if i < last {
      PackedAt(fields[..last], w, i);
      assert (last - i) * w == w + (last - 1 - i) * w;
      ShrShr(Packed(fields, w).value, w, (last - 1 - i) * w);
    } else {
      NoShift(Packed(fields, w).value);
    }
  }

  lemma NoShift(x: nat)
    ensures Shr(x, 0) == x
  {
  }

  lemma Stacked(high: nat, field: nat, w: nat)
    requires field < Pow2(w)
    ensures Shr(Shl(high, w) + field, w) == high && Low(Shl(high, w) + field, w) == field
  {
    StackedField(field, high, w);
  }

  lemma FieldShift(x: nat, v: nat, total: nat, all: nat, upTo: nat)
    requires upTo <= all <= total && x == Shl(v, total - all)
    ensures Shr(x, total - upTo) == Shr(v, all - upTo)
  {
    ShlThenShr(v, total - all);
    ShrShr(x, total - all, all - upTo);
  }

  /** Every field is found again in the bytes, with zeros behind them or not. */
  lemma FieldFound(section: seq<Byte>, fields: seq<nat>, w: nat, i: nat)
    requires i < |fields| && forall j :: 0 <= j < |fields| ==> fields[j] < Pow2(w)
    requires |fields| * w <= 8 * |section|
    requires BE(section) == Shl(Packed(fields, w).value, 8 * |section| - |fields| * w)
    ensures (i + 1) * w <= 8 * |section| && FieldAt(section, i, w) == fields[i]
  {
    hide Shl, Shr, Low, BE, Packed, Pow2;
    var n := |fields|;
    FieldsLeft(n, i, w);
    MulMonotone(i + 1, |fields|, w);
    PackedAt(fields, w, i);
    FieldShift(BE(section), Packed(fields, w).value, 8 * |section|, |fields| * w, (i + 1) * w);
  }

  lemma FieldsLeft(n: nat, i: nat, w: nat)
    requires i < n
    ensures (n - 1 - i) * w == n * w - (i + 1) * w
  {
  }

  /** A fresh word behind full ones. */
  lemma NewWord(values: seq<nat>, lastSize: nat, value: nat, length: nat)
    requires values == [] || lastSize == WORD_BITS
    ensures var before := if values == [] then EMPTY
                          else Behind(Bits(Words(values[..|values| - 1]), (|values| - 1) * WORD_BITS), values[|values| - 1], lastSize);
            Bits(Words(values), |values| * WORD_BITS) == before
  {
  }

  lemma WholeWord(front: Bits, last: nat, value: nat)
    requires last < Pow2(0) && value < Pow2(64)
    ensures Behind(front, value, 64) == Behind(Behind(front, last, 0), value, 64)
  {
  }

  /** More bits in the last word. */
  lemma GrownWord(front: Bits, last: nat, lastSize: nat, value: nat, length: nat)
    requires last < Pow2(lastSize) && value < Pow2(length) && lastSize + length <= 64
    ensures Behind(Behind(front, last, lastSize), value, length) == Behind(front, Shl(last, length) + value, lastSize + length)
    ensures Shl(last, length) + value < Pow2(lastSize + length) <= Pow2(64)
  {
    ShlAdd(Shl(front.value, lastSize), last, length);
    ShlShl(front.value, lastSize, length);
    ShlBelow(last, lastSize, length);
    Pow2Monotone(lastSize + length, 64);
  }
}
