/** The bit field that phase 2 marks used entries in, and the index that ranks its bits. */
module Bitfield {
  import opened Powers

  const WORD_BITS: nat := 64

  function BitOf(w: nat, b: nat): bool {
    Shr(w, b) % 2 == 1
  }

  /** `Util::PopCount` */
  function PopCount(w: nat): nat {
    if w == 0 then 0 else w % 2 + PopCount(w / 2)
  }

  function CountTrue(s: seq<bool>): (n: nat)
    ensures n <= |s|
  {
    if s == [] then 0 else (if s[0] then 1 else 0) + CountTrue(s[1..])
  }

  /** How many bits below p are set. */
  function Rank(bits: seq<bool>, p: nat): nat
    requires p <= |bits|
  {
    CountTrue(bits[..p])
  }

  lemma {:induction false} CountAppend(s: seq<bool>, t: seq<bool>)
    ensures CountTrue(s + t) == CountTrue(s) + CountTrue(t)
  {
    if s == [] {
      assert s + t == t;
    } else {
      assert (s + t)[1..] == s[1..] + t;
      CountAppend(s[1..], t);
    }
  }

  lemma RankSplit(bits: seq<bool>, p: nat, q: nat)
    requires p <= q <= |bits|
    ensures Rank(bits, q) == Rank(bits, p) + CountTrue(bits[p..q])
  {
    CountAppend(bits[..p], bits[p..q]);
    assert bits[..p] + bits[p..q] == bits[..q];
  }

  lemma RankNext(bits: seq<bool>, p: nat)
    requires p < |bits|
    ensures Rank(bits, p + 1) == Rank(bits, p) + if bits[p] then 1 else 0
  {
    RankSplit(bits, p, p + 1);
    assert bits[p..p + 1] == [bits[p]];
    assert [bits[p]][1..] == [];
  }

  // ----- the bits of a word

  lemma BitShift(w: nat, b: nat)
    requires b > 0
    ensures BitOf(w, b) == BitOf(w / 2, b - 1)
  {
    ShrShr(w, 1, b - 1);
  }

  function BitsOf(w: nat, n: nat): (s: seq<bool>)
    ensures |s| == n
  {
    seq(n, b requires 0 <= b => BitOf(w, b))
  }

  lemma {:induction false} PopCountLow(w: nat, n: nat)
    ensures PopCount(Low(w, n)) == CountTrue(BitsOf(w, n))
  {
    if n > 0 {
      PopCountLow(w / 2, n - 1);
      forall b | 0 <= b < n - 1
        ensures BitsOf(w, n)[1..][b] == BitsOf(w / 2, n - 1)[b]
      {
        BitShift(w, b + 1);
      }
      assert BitsOf(w, n)[1..] == BitsOf(w / 2, n - 1);
      assert BitOf(w, 0) <==> w % 2 == 1;
    }
  }

  lemma {:induction false} OrBit(w: nat, b: nat, c: nat)
    ensures BitOf(BitOr(w, Shl(1, b)), c) == (BitOf(w, c) || b == c)
    decreases b + c
  {
    var one := Shl(1, b);
    ShlThenShr(1, b);
    if b == 0 {
      OrZero(w / 2);
      OrSwap(w / 2);
      if c > 0 {
        BitShift(BitOr(w, one), c);
        BitShift(w, c);
      }
    } else {
      assert one == 2 * Shl(1, b - 1);
      if c > 0 {
        BitShift(BitOr(w, one), c);
        BitShift(w, c);
        OrBit(w / 2, b - 1, c - 1);
      }
    }
  }

  lemma {:induction false} OrSwap(a: nat)
    ensures BitOr(a, 0) == a
    decreases a
  {
    if a > 0 {
      OrSwap(a / 2);
    }
  }

  lemma {:induction false} OrBelow(a: nat, b: nat, n: nat)
    requires a < Pow2(n) && b < Pow2(n)
    ensures BitOr(a, b) < Pow2(n)
  {
    if n > 0 {
      OrBelow(a / 2, b / 2, n - 1);
    }
  }

  // ----- the bit field

  /** Bit i of a field stored in words. */
  function FieldBit(words: seq<nat>, i: nat): bool
    requires i < WORD_BITS * |words|
  {
    BitOf(words[i / WORD_BITS], i % WORD_BITS)
  }

  function FieldBits(words: seq<nat>): (s: seq<bool>)
    ensures |s| == WORD_BITS * |words|
  {
    seq(WORD_BITS * |words|, i requires 0 <= i < WORD_BITS * |words| => FieldBit(words, i))
  }

  lemma WordBits(words: seq<nat>, k: nat, n: nat)
    requires k < |words| && n <= WORD_BITS
    ensures FieldBits(words)[WORD_BITS * k..WORD_BITS * k + n] == BitsOf(words[k], n)
  {
    forall b | 0 <= b < n
      ensures FieldBits(words)[WORD_BITS * k + b] == BitOf(words[k], b)
    {
      var i := WORD_BITS * k + b;
      assert i / WORD_BITS == k && i % WORD_BITS == b;
    }
  }

  lemma SetWordBit(words: seq<nat>, bit: nat)
    requires bit < WORD_BITS * |words|
    ensures var k := bit / WORD_BITS;
            FieldBits(words[k := BitOr(words[k], Shl(1, bit % WORD_BITS))]) == FieldBits(words)[bit := true]
  {
    var k := bit / WORD_BITS;
    var words' := words[k := BitOr(words[k], Shl(1, bit % WORD_BITS))];
    forall i | 0 <= i < WORD_BITS * |words|
      ensures FieldBit(words', i) == FieldBits(words)[bit := true][i]
    {
      if i / WORD_BITS == k {
        OrBit(words[k], bit % WORD_BITS, i % WORD_BITS);
      }
    }
  }

  class BitField {
    const words: array<nat>

    /** All bits clear; the size is rounded up to whole words. */
    constructor (size: nat)
      ensures fresh(words) && Valid() && |Bits()| >= size
      ensures forall i :: 0 <= i < |Bits()| ==> !Bits()[i]
    {
      words := new nat[(size + 63) / 64](_ => 0);
      new;
      ZeroBits(words[..]);
      WordsBelow(words[..]);
    }

    ghost predicate Valid()
      reads words
    {
      forall k :: 0 <= k < words.Length ==> words[k] < Pow2(WORD_BITS)
    }

    ghost function Bits(): (s: seq<bool>)
      reads words
      ensures |s| == WORD_BITS * words.Length
    {
      FieldBits(words[..])
    }

    function Size(): nat {
      words.Length * WORD_BITS
    }

    method Set(bit: nat)
      requires Valid() && bit < Size()
      modifies words
      ensures Valid() && Bits() == old(Bits())[bit := true]
    {
      SetWordBit(words[..], bit);
      ghost var before := words[..];
      var k, b := bit / WORD_BITS, bit % WORD_BITS;
      OneBit(b);
      OrBelow(words[k], Shl(1, b), WORD_BITS);
      words[k] := BitOr(words[k], Shl(1, b));
      assert words[..] == before[k := words[k]];
    }

    predicate Get(bit: nat)
      requires bit < Size()
      reads words
      ensures Get(bit) == Bits()[bit]
    {
      BitOf(words[bit / WORD_BITS], bit % WORD_BITS)
    }

    method Clear()
      modifies words
      ensures Valid() && forall i :: 0 <= i < |Bits()| ==> !Bits()[i]
    {
      for i := 0 to words.Length
        invariant forall k :: 0 <= k < i ==> words[k] == 0
      {
        words[i] := 0;
      }
      ZeroBits(words[..]);
      WordsBelow(words[..]);
    }

    /** Set bits in [start, end), counted word by word with a masked last word. */
    method Count(start: nat, end: nat) returns (n: nat)
      requires Valid() && start % WORD_BITS == 0 && start <= end <= Size()
      ensures n == CountTrue(Bits()[start..end])
    {
      hide FieldBits, PopCount, Low, Pow2;
      n := 0;
      var k, last := start / WORD_BITS, end / WORD_BITS;
      while k != last
        invariant start / WORD_BITS <= k <= last
        invariant n == CountTrue(Bits()[start..WORD_BITS * k])
        decreases last - k
      {
        CountWord(words[..], start, k, WORD_BITS);
        LowOfSmall(words[k], WORD_BITS);
        n := n + PopCount(words[k]);
        k := k + 1;
      }
      var tail := end % WORD_BITS;
      if tail > 0 {
        CountWord(words[..], start, last, tail);
        n := n + PopCount(Low(words[last], tail));
      }
    }
  }

  lemma OneBit(b: nat)
    requires b < WORD_BITS
    ensures Shl(1, b) < Pow2(WORD_BITS)
  {
    ShlIsTimes(1, b);
    Pow2Strict(b, WORD_BITS);
  }

  lemma CountWord(words: seq<nat>, start: nat, k: nat, n: nat)
    requires k < |words| && n <= WORD_BITS && start <= WORD_BITS * k
    ensures CountTrue(FieldBits(words)[start..WORD_BITS * k + n])
         == CountTrue(FieldBits(words)[start..WORD_BITS * k]) + PopCount(Low(words[k], n))
  {
    var bits := FieldBits(words);
    WordBits(words, k, n);
    PopCountLow(words[k], n);
    CountAppend(bits[start..WORD_BITS * k], bits[WORD_BITS * k..WORD_BITS * k + n]);
    assert bits[start..WORD_BITS * k] + bits[WORD_BITS * k..WORD_BITS * k + n] == bits[start..WORD_BITS * k + n];
  }

  lemma {:induction false} ZeroShr(b: nat)
    ensures Shr(0, b) == 0
  {
    if b > 0 {
      ZeroShr(b - 1);
    }
  }

  lemma ZeroBits(words: seq<nat>)
    requires forall k :: 0 <= k < |words| ==> words[k] == 0
    ensures forall i :: 0 <= i < |FieldBits(words)| ==> !FieldBits(words)[i]
  {
    forall i | 0 <= i < |FieldBits(words)|
      ensures !FieldBits(words)[i]
    {
      ZeroShr(i % WORD_BITS);
    }
  }

  lemma WordsBelow(words: seq<nat>)
    requires forall k :: 0 <= k < |words| ==> words[k] == 0
    ensures forall k :: 0 <= k < |words| ==> words[k] < Pow2(WORD_BITS)
  {
  }

  // ----- the rank index

  const INDEX_BUCKET: nat := 1024

  /** The counts at the start of every bucket. */
  ghost predicate Indexed(index: seq<nat>, bits: seq<bool>) {
    forall k :: 0 <= k < |index| ==> k * INDEX_BUCKET < |bits| && index[k] == Rank(bits, k * INDEX_BUCKET)
  }

  lemma RankZero(bits: seq<bool>)
    ensures Rank(bits, 0) == 0
  {
  }

  class BitfieldIndex {
    const field: BitField
    var index: seq<nat>

    ghost predicate Valid()
      reads this, field.words
    {
      && field.Valid() && |index| * INDEX_BUCKET >= field.Size()
      && Indexed(index, field.Bits())
    }

    constructor (b: BitField)
      requires b.Valid()
      ensures field == b && Valid() && b.Size() <= 1024 * |index| < b.Size() + 1024
    {
      var counts := BuildIndex(b);
      field := b;
      index := counts;
    }

    static method BuildIndex(b: BitField) returns (index: seq<nat>)
      requires b.Valid()
      ensures b.Size() <= 1024 * |index| < b.Size() + 1024 && Indexed(index, b.Bits())
    {
      hide FieldBits, CountTrue, Rank;
      index := [];
      RankZero(b.Bits());
      var counter, idx := 0, 0;
      while idx < b.Size()
        invariant idx == |index| * INDEX_BUCKET < b.Size() + INDEX_BUCKET
        invariant Indexed(index, b.Bits())
        invariant counter == Rank(b.Bits(), if idx < b.Size() then idx else b.Size())
      {
        BucketAligned(|index|);
        index := index + [counter];
        var left := if b.Size() - idx < INDEX_BUCKET then b.Size() - idx else INDEX_BUCKET;
        RankSplit(b.Bits(), idx, idx + left);
        var more := b.Count(idx, idx + left);
        counter := counter + more;
        idx := idx + INDEX_BUCKET;
      }
    }

    /** New position and new offset: the ranks that a plain count of set bits gives. */
    method Lookup(pos: nat, offset: nat) returns (newPos: nat, newOff: nat)
      requires Valid() && pos + offset < field.Size()
      ensures newPos == Rank(field.Bits(), pos)
      ensures newPos + newOff == Rank(field.Bits(), pos + offset)
    {
      hide FieldBits, CountTrue, Rank;
      var bucket := pos / INDEX_BUCKET;
      var base := index[bucket];
      var alignedPos := pos - pos % 64;
      Aligned(pos, bucket);
      var alignedPosCount := field.Count(bucket * INDEX_BUCKET, alignedPos);
      var offsetCount := field.Count(alignedPos, pos + offset);
      var posCount := field.Count(alignedPos, pos);
      RankSplit(field.Bits(), bucket * INDEX_BUCKET, alignedPos);
      RankSplit(field.Bits(), alignedPos, pos);
      RankSplit(field.Bits(), alignedPos, pos + offset);
      RankSplit(field.Bits(), pos, pos + offset);
      newPos, newOff := base + (alignedPosCount + posCount), (alignedPosCount + offsetCount) - (alignedPosCount + posCount);
    }
  }

  lemma BucketAligned(k: nat)
    ensures (k * INDEX_BUCKET) % WORD_BITS == 0
  {
    MulDivMod(16 * k, 0, 64);
  }

  lemma Aligned(pos: nat, bucket: nat)
    requires bucket == pos / INDEX_BUCKET
    ensures var a := pos - pos % 64;
            bucket * INDEX_BUCKET <= a <= pos && a % WORD_BITS == 0 && (bucket * INDEX_BUCKET) % WORD_BITS == 0
  {
    DivMod(pos, 64);
    MulDivMod(pos / 64, 0, 64);
    DivSplit(pos, 64, 16);
    DivMod(pos / 64, 16);
    BucketAligned(bucket);
  }
}
