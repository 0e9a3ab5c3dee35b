/** Phase 2: marks the entries that table 7 reaches, drops the others and renumbers what is left. */
module Compaction {
  import opened Bitfield
  import opened MergeBuffer

  /** A reference to two entries of the table below. */
  datatype Ref = Ref(pos: nat, off: nat)

  /** A kept entry refers to position p. */
  ghost predicate Marked(table: seq<Ref>, used: seq<bool>, n: nat, p: nat)
    requires n <= |table| <= |used|
  {
    exists i :: 0 <= i < n && used[i] && (p == table[i].pos || p == table[i].pos + table[i].off)
  }

  /** The bits of the table below, marked by the kept entries among the first n. */
  ghost predicate Marks(table: seq<Ref>, used: seq<bool>, n: nat, bits: seq<bool>)
    requires n <= |table| <= |used|
  {
    forall p {:trigger Marked(table, used, n, p)} :: 0 <= p < |bits| ==> (bits[p] <==> Marked(table, used, n, p))
  }

  predicate RefsBelow(table: seq<Ref>, size: nat) {
    forall i :: 0 <= i < |table| ==> table[i].pos + table[i].off < size
  }

  /** The kept entries among the first n, with ranks for positions and a running number for a key. */
  function Compacted(table: seq<Ref>, used: seq<bool>, bits: seq<bool>, n: nat): (r: seq<Entry>)
    requires n <= |table| <= |used| && RefsBelow(table, |bits|)
    ensures |r| == Rank(used, n)
  {
    if n == 0 then []
    else
      var before, e := Compacted(table, used, bits, n - 1), table[n - 1];
      RankNext(used, n - 1);
      if used[n - 1] then before + [Renumbered(e, bits, |before|)] else before
  }

  function Renumbered(e: Ref, bits: seq<bool>, key: nat): Entry
    requires e.pos + e.off < |bits|
  {
    RankSplit(bits, e.pos, e.pos + e.off);
    Entry(key, Rank(bits, e.pos), Rank(bits, e.pos + e.off) - Rank(bits, e.pos))
  }

  /** The entries whose bit is set, in order. */
  function Filter<T>(s: seq<T>, bits: seq<bool>): (r: seq<T>)
    requires |s| <= |bits|
    ensures |r| == Rank(bits, |s|)
  {
    if s == [] then []
    else
      RankNext(bits, |s| - 1);
      Filter(s[..|s| - 1], bits) + if bits[|s| - 1] then [s[|s| - 1]] else []
  }

  lemma RankBelow(bits: seq<bool>, p: nat, q: nat)
    requires p < q <= |bits| && bits[p]
    ensures Rank(bits, p) < Rank(bits, q)
  {
    RankNext(bits, p);
    RankSplit(bits, p + 1, q);
  }

  /** Where a kept entry goes. */
  lemma {:induction false} FilterAt<T>(s: seq<T>, bits: seq<bool>, p: nat)
    requires p < |s| <= |bits| && bits[p]
    ensures Rank(bits, p) < |Filter(s, bits)| && Filter(s, bits)[Rank(bits, p)] == s[p]
  {
    RankBelow(bits, p, |s|);
    var last := |s| - 1;
    if p < last {
      FilterAt(s[..last], bits, p);
    }
  }

  lemma {:induction false} CompactedAt(table: seq<Ref>, used: seq<bool>, bits: seq<bool>, n: nat, i: nat)
    requires i < n <= |table| <= |used| && RefsBelow(table, |bits|) && used[i]
    ensures Rank(used, i) < |Compacted(table, used, bits, n)|
    ensures Compacted(table, used, bits, n)[Rank(used, i)] == Renumbered(table[i], bits, Rank(used, i))
  {
    RankBelow(used, i, n);
    if i < n - 1 {
      CompactedAt(table, used, bits, n - 1, i);
    }
  }

  lemma {:induction false} CountBelow(bits: seq<bool>, p: nat, q: nat)
    requires p <= q <= |bits|
    ensures Rank(bits, q) - Rank(bits, p) <= q - p
  {
    RankSplit(bits, p, q);
  }

  /** Compaction preserves references: a kept entry goes to the place its rank gives, refers to the
      same two entries of the table below as before, and its distance does not grow; nor does it
      shrink to nothing. */
  lemma ReferencesPreserved<T>(table: seq<Ref>, used: seq<bool>, bits: seq<bool>, below: seq<T>, i: nat)
    requires i < |table| <= |used| && used[i] && Marks(table, used, |table|, bits)
    requires RefsBelow(table, |below|) && |below| <= |bits|
    ensures Rank(used, i) < |Compacted(table, used, bits, |table|)|
    ensures var q, e := Rank(used, i), table[i];
            var e', below' := Compacted(table, used, bits, |table|)[q], Filter(below, bits);
            && e'.key == q
            && e'.pos == Rank(bits, e.pos) && e'.pos + e'.off == Rank(bits, e.pos + e.off)
            && e'.pos + e'.off < |below'|
            && below'[e'.pos] == below[e.pos] && below'[e'.pos + e'.off] == below[e.pos + e.off]
            && e'.off <= e.off && (e.off > 0 ==> e'.off > 0)
            && bits[e.pos] && bits[e.pos + e.off]
  {
    var e := table[i];
    CompactedAt(table, used, bits, |table|, i);
    assert Marked(table, used, |table|, e.pos) && Marked(table, used, |table|, e.pos + e.off);
    FilterAt(below, bits, e.pos);
    FilterAt(below, bits, e.pos + e.off);
    CountBelow(bits, e.pos, e.pos + e.off);
    RankSplit(bits, e.pos, e.pos + e.off);
    if e.off > 0 {
      RankBelow(bits, e.pos, e.pos + e.off);
    }
  }

  // ----- the two passes over a table

  /** `R_used->get`, where no bit field means that everything is kept. */
  ghost function UsedBits(used: BitField?, n: nat): seq<bool>
    reads if used == null then {} else {used.words}
  {
    if used == null then seq(n, _ => true) else used.Bits()
  }

  /** One entry of the marking pass. */
  method MarkEntry(lUsed: BitField, table: seq<Ref>, rUsed: BitField?, i: nat)
    requires i < |table| && RefsBelow(table, lUsed.Size()) && lUsed.Valid()
    requires rUsed != null ==> rUsed.words != lUsed.words && |table| <= rUsed.Size()
    requires Marks(table, UsedBits(rUsed, |table|), i, lUsed.Bits())
    modifies lUsed.words
    ensures lUsed.Valid() && Marks(table, UsedBits(rUsed, |table|), i + 1, lUsed.Bits())
  {
    MarksNext(table, UsedBits(rUsed, |table|), i, lUsed.Bits());
    hide Marks, FieldBits, BitField.Get, BitField.Valid;
    if rUsed != null && !rUsed.Get(i) {
      return;
    }
    lUsed.Set(table[i].pos);
    lUsed.Set(table[i].pos + table[i].off);
  }

  /** The marking pass. */
  method Mark(lUsed: BitField, table: seq<Ref>, rUsed: BitField?)
    requires RefsBelow(table, lUsed.Size())
    requires rUsed != null ==> rUsed.words != lUsed.words && |table| <= rUsed.Size()
    modifies lUsed.words
    ensures lUsed.Valid() && Marks(table, UsedBits(rUsed, |table|), |table|, lUsed.Bits())
  {
    lUsed.Clear();
    ghost var used := UsedBits(rUsed, |table|);
    MarksNone(table, used, lUsed.Bits());
    hide Marks, FieldBits, BitField.Valid, RefsBelow;
    for i := 0 to |table|
      invariant lUsed.Valid() && UsedBits(rUsed, |table|) == used && Marks(table, used, i, lUsed.Bits())
    {
      MarkEntry(lUsed, table, rUsed, i);
    }
  }

  lemma MarksNone(table: seq<Ref>, used: seq<bool>, bits: seq<bool>)
    requires |table| <= |used| && forall p :: 0 <= p < |bits| ==> !bits[p]
    ensures Marks(table, used, 0, bits)
  {
  }

  lemma MarksNext(table: seq<Ref>, used: seq<bool>, i: nat, bits: seq<bool>)
    requires i < |table| <= |used| && Marks(table, used, i, bits) && RefsBelow(table, |bits|)
    ensures !used[i] ==> Marks(table, used, i + 1, bits)
    ensures used[i] ==> Marks(table, used, i + 1, bits[table[i].pos := true][table[i].pos + table[i].off := true])
  {
    var bits' := if used[i] then bits[table[i].pos := true][table[i].pos + table[i].off := true] else bits;
    forall p | 0 <= p < |bits|
      ensures bits'[p] <==> Marked(table, used, i + 1, p)
    {
      assert bits[p] <==> Marked(table, used, i, p);
    }
  }

  /** The rewriting pass, with the running number of the counting thread. */
  method Remap(index: BitfieldIndex, table: seq<Ref>, rUsed: BitField?) returns (out: seq<Entry>)
    requires index.Valid() && RefsBelow(table, index.field.Size())
    requires rUsed != null ==> |table| <= rUsed.Size()
    ensures out == Compacted(table, UsedBits(rUsed, |table|), index.field.Bits(), |table|)
  {
    hide Rank, FieldBits, CountTrue, BitField.Get, Indexed;
    out := [];
    var numWritten := 0;
    ghost var used, bits := UsedBits(rUsed, |table|), index.field.Bits();
    for i := 0 to |table|
      invariant out == Compacted(table, used, bits, i) && numWritten == |out|
    {
      if rUsed != null && !rUsed.Get(i) {
        continue;
      }
      var pos, off := index.Lookup(table[i].pos, table[i].off);
      out := out + [Entry(numWritten, pos, off)];
      numWritten := numWritten + 1;
    }
  }

  /** compute_table of phase 2 */
  method ComputeTable(lUsed: BitField, table: seq<Ref>, rUsed: BitField?) returns (out: seq<Entry>)
    requires RefsBelow(table, lUsed.Size())
    requires rUsed != null ==> rUsed.words != lUsed.words && |table| <= rUsed.Size()
    modifies lUsed.words
    ensures lUsed.Valid() && Marks(table, UsedBits(rUsed, |table|), |table|, lUsed.Bits())
    ensures out == Compacted(table, UsedBits(rUsed, |table|), lUsed.Bits(), |table|)
  {
    Mark(lUsed, table, rUsed);
    var index := new BitfieldIndex(lUsed);
    out := Remap(index, table, rUsed);
  }
}
