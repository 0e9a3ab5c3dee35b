/** Bytes and little-endian numbers. */
module Bytes {
  import opened Powers

  type Byte = b: nat | b < 256

  /** Not an error the original reports: it stores past the end of the buffer it was given. */
  const PAST_END := "store past the end of the buffer"

  function LE(s: seq<Byte>): nat {
    if s == [] then 0 else s[0] + 256 * LE(s[1..])
  }

  lemma ShlByte(x: int)
    ensures Shl(x, 8) == 256 * x
  {
    ShlIsTimes(x, 8);
    assert Pow2(8) == 256;
  }

  lemma {:induction false} LEBound(s: seq<Byte>)
    ensures LE(s) < Pow2(8 * |s|)
  {
    if s != [] {
      LEBound(s[1..]);
      Pow2Add(8, 8 * |s| - 8);
      assert Pow2(8) == 256;
    }
  }

  /** As many bytes of the same number are the same bytes. */
  lemma {:induction false} LEUnique(a: seq<Byte>, b: seq<Byte>)
    requires |a| == |b| && LE(a) == LE(b)
    ensures a == b
  {
    if a != [] {
      LEUnique(a[1..], b[1..]);
      assert a == [a[0]] + a[1..] && b == [b[0]] + b[1..];
    }
  }

  lemma {:induction false} LEAppend(a: seq<Byte>, b: seq<Byte>)
    ensures LE(a + b) == LE(a) + Shl(LE(b), 8 * |a|)
  {
    if a == [] {
      assert a + b == b;
    } else {
      assert (a + b)[1..] == a[1..] + b;
      LEAppend(a[1..], b);
      ShlShl(LE(b), 8 * |a| - 8, 8);
      ShlByte(Shl(LE(b), 8 * |a| - 8));
    }
  }

  lemma LEParts(s: seq<Byte>, front: seq<Byte>, back: seq<Byte>, k: nat)
    requires s == front + back && k == 8 * |front|
    ensures LE(s) == LE(front) + Shl(LE(back), k) && LE(front) < Pow2(k)
  {
    LEAppend(front, back);
    LEBound(front);
  }

  lemma LEPartsBack(s: seq<Byte>, front: seq<Byte>, back: seq<Byte>, k: nat)
    requires s == front + back && k == 8 * |front|
    ensures Shr(LE(s), k) == LE(back) && Low(LE(s), k) == LE(front)
  {
    LEParts(s, front, back, k);
    StackedField(LE(front), LE(back), k);
  }

  /** The number in the first n bytes and the number in the others. */
  lemma LESplit(s: seq<Byte>, n: nat)
    requires n <= |s|
    ensures Shr(LE(s), 8 * n) == LE(s[n..])
    ensures Low(LE(s), 8 * n) == LE(s[..n])
  {
    LEPartsBack(s, s[..n], s[n..], 8 * n);
  }

  /** Appending the low byte of what is still to be written. */
  lemma NextByte(s: seq<Byte>, t: seq<Byte>, b: Byte, rest: nat, k: nat)
    requires t == s + [b] && k == 8 * |s|
    ensures LE(t) + Shl(rest, k + 8) == LE(s) + Shl(b + 256 * rest, k)
  {
    LEParts(t, s, [b], k);
    LEOne(b);
    SplitShl(rest, b, k);
  }

  lemma LEOne(b: Byte)
    ensures LE([b]) == b
  {
  }

  lemma SplitShl(q: nat, r: nat, k: nat)
    ensures Shl(r, k) + Shl(q, k + 8) == Shl(r + 256 * q, k)
  {
    ShlAdd(r, 256 * q, k);
    ShlShl(q, 8, k);
    ShlByte(q);
  }

  /** `MEM_writeLEST`: the 64-bit register, little-endian. */
  method WriteLE64(dst: array<Byte>, ptr: nat, value: nat)
    requires ptr + 8 <= dst.Length && value < Pow2(64)
    modifies dst
    ensures LE(dst[ptr..ptr + 8]) == value
    ensures dst[..ptr] == old(dst[..ptr]) && dst[ptr + 8..] == old(dst[ptr + 8..])
  {
    hide LE, Shl, Pow2;
    var i: nat, rest: nat := 0, value;
    NothingWritten(value);
    assert dst[ptr..ptr + 0] == [];
    while i < 8
      invariant i <= 8
      invariant LE(dst[ptr..ptr + i]) + Shl(rest, 8 * i) == value
      invariant dst[..ptr] == old(dst[..ptr]) && dst[ptr + 8..] == old(dst[ptr + 8..])
    {
      ghost var before := dst[ptr..ptr + i];
      dst[ptr + i] := rest % 256;
      NextByte(before, dst[ptr..ptr + i + 1], rest % 256, rest / 256, 8 * i);
      i, rest := i + 1, rest / 256;
    }
    NothingLeft(LE(dst[ptr..ptr + 8]), rest, value);
  }

  lemma NothingWritten(value: nat)
    ensures LE([]) + Shl(value, 0) == value
  {
  }

  lemma NothingLeft(low: nat, rest: nat, value: nat)
    requires low + Shl(rest, 64) == value < Pow2(64)
    ensures low == value
  {
    ShlIsTimes(rest, 64);
    if rest > 0 {
      MulMonotone(1, rest, Pow2(64));
    }
  }

  /** `MEM_readLEST`, and the byte-by-byte read of a stream shorter than the register. */
  method ReadLE(src: seq<Byte>, from: nat, to: nat) returns (value: nat)
    requires from <= to <= |src|
    ensures value == LE(src[from..to])
  {
    value := 0;
    var i := to;
    while i > from
      invariant from <= i <= to
      invariant value == LE(src[i..to])
    {
      i := i - 1;
      assert src[i..to][1..] == src[i + 1..to];
      value := src[i] + 256 * value;
    }
  }
}
