/** The plotter's use of the FSE coder: park deltas compressed with a fixed distribution and a table
    of 2^14 cells. */
module AnsDeltas {
  import opened Bytes
  import opened Powers
  import opened Spread
  import opened FseTables
  import opened Wrappers
  import opened BitStream
  import opened FseBlock

  const TABLELOG: nat := 14

  /** What CreateNormalizedCount promises: at most 255 symbols, each with a nonzero count, whose
      shares add up to the table size; with more than one symbol none owns the whole table. */
  predicate DeltaCounts(norm: seq<int>) {
    && 2 <= |norm| <= 255 && Normalized(norm, 14)
    && (forall s :: 0 <= s < |norm| ==> norm[s] != 0)
    && NoFullSymbol(norm, Pow2(14))
  }

  /** Not an error the original reports: it looks the delta up behind the end of its table. */
  const NO_ENTRY := "delta without a table entry"

  /** The bytes are the block of these deltas under the table of this distribution. */
  ghost predicate IsDeltaBlock(norm: seq<int>, deltas: seq<Byte>, bytes: seq<Byte>)
    requires Counts(norm)
  {
    exists ct: CTable :: BlockUnder(ct, norm, deltas, bytes)
  }

  ghost predicate BlockUnder(ct: CTable, norm: seq<int>, deltas: seq<Byte>, bytes: seq<Byte>)
    requires Counts(norm)
  {
    && ct.tableLog == 14 && EncoderTable(ct, norm, Cells(norm, 14))
    && Symbols(ct, deltas) && IsStream(bytes, Block(ct, deltas))
  }

  /** Eight bytes a symbol hold any block, and the loop never comes near the end of the buffer. */
  lemma CapacitySuffices(ct: CTable, norm: seq<int>, t: seq<nat>, src: seq<Byte>)
    requires EncoderTable(ct, norm, t) && Covered(norm, src) && |src| >= 3
    ensures Symbols(ct, src)
    ensures Encoded(ct, src, 0).bits.length / 8 <= 8 * |src| - 8
    ensures (Block(ct, src).length + 1) / 8 < 8 * |src| - 8
  {
    TableFacts(ct, norm, t, src);
    EncodedInRange(ct, norm, t, src, 0);
    MulMonotone(ct.tableLog, 14, |src| - 2);
  }

  lemma FillsTable(norm: seq<int>)
    requires DeltaCounts(norm)
    ensures LowFits(norm, Pow2(TABLELOG)) && Start(norm, |norm|) == Pow2(TABLELOG)
  {
    OneLap(norm, Pow2(TABLELOG));
  }

  /** The deltas of a block all have an entry. */
  lemma BlockIsCovered(norm: seq<int>, deltas: seq<Byte>, bytes: seq<Byte>)
    requires DeltaCounts(norm) && IsDeltaBlock(norm, deltas, bytes)
    ensures Covered(norm, deltas)
  {
    var ct: CTable :| BlockUnder(ct, norm, deltas, bytes);
  }

  /** There is only one block of these deltas. */
  lemma BlockUnique(norm: seq<int>, deltas: seq<Byte>, bytes: seq<Byte>, bytes': seq<Byte>)
    requires DeltaCounts(norm) && IsDeltaBlock(norm, deltas, bytes) && IsDeltaBlock(norm, deltas, bytes')
    ensures bytes == bytes'
  {
    var ct: CTable :| BlockUnder(ct, norm, deltas, bytes);
    var ct': CTable :| BlockUnder(ct', norm, deltas, bytes');
    hide Block, Cells, IsCTable, LE;
    CTableUnique(ct, ct', norm, Cells(norm, TABLELOG));
    LEUnique(bytes, bytes');
  }

  /** A delta costs at most 14 bits. */
  lemma BlockFits(norm: seq<int>, deltas: seq<Byte>, bytes: seq<Byte>)
    requires DeltaCounts(norm) && |deltas| >= 3 && IsDeltaBlock(norm, deltas, bytes)
    ensures |bytes| <= 14 * |deltas| / 8 + 1
  {
    BlockIsCovered(norm, deltas, bytes);
    var ct: CTable :| BlockUnder(ct, norm, deltas, bytes);
    hide Block, Cells, IsCTable, LE, Encoded, Symbols;
    EncodedInRange(ct, norm, Cells(norm, TABLELOG), deltas, 0);
    BlockLength(ct, deltas);
  }

  /** ANSEncodeDeltas: the size is 0 exactly for fewer than three deltas, and three or more need an entry
      each. */
  method AnsEncodeDeltas(deltas: seq<Byte>, norm: seq<int>) returns (r: Result<seq<Byte>>)
    requires DeltaCounts(norm)
    ensures r.Ok? <==> |deltas| <= 2 || Covered(norm, deltas)
    ensures r.Err? ==> r.error == NO_ENTRY
    ensures r.Ok? && |deltas| <= 2 ==> r.value == []
    ensures r.Ok? && |deltas| >= 3 ==> 0 < |r.value| < 8 * |deltas| && IsDeltaBlock(norm, deltas, r.value)
  {
    if |deltas| > 2 {
      for i := 0 to |deltas|
        invariant Covered(norm, deltas[..i])
      {
        if deltas[i] >= |norm| {
          return Err(NO_ENTRY);
        }
      }
      assert deltas[..|deltas|] == deltas;
    }
    FillsTable(norm);
    var built := BuildCTable(norm, TABLELOG);
    var ct := built.value;
    ghost var t := Cells(norm, TABLELOG);
    hide Cells, IsCTable, Block, Encoded, IsStream, DeltaCounts;
    var dst := new Byte[8 * |deltas|](_ => 0);
    if |deltas| >= 3 {
      CapacitySuffices(ct, norm, t, deltas);
    }
    var size := CompressUsingCTable(dst, deltas, ct, norm, t);
    r := Ok(dst[..size.value]);
    if size.value != 0 {
      assert BlockUnder(ct, norm, deltas, r.value);
    }
  }

  /** The table and the decoder, without the check of the deltas. */
  method DecodeDeltas(inp: seq<Byte>, numDeltas: nat, norm: seq<int>, ghost src: seq<Byte>)
    returns (r: Result<nat>, dst: array<Byte>)
    requires DeltaCounts(norm)
    ensures dst.Length == numDeltas
    ensures |src| >= 3 && IsDeltaBlock(norm, src, inp) ==>
              if |src| <= numDeltas then r == Ok(|src|) && dst[..|src|] == src else r == Err("dstSize_tooSmall")
  {
    FillsTable(norm);
    var built := BuildDTable(norm, TABLELOG);
    var dt := built.value;
    ghost var t, ct := Cells(norm, TABLELOG), CTable(0, 0, [], []);
    hide Cells, IsDTable, Block, IsStream, IsCTable;
    if |src| >= 3 && IsDeltaBlock(norm, src, inp) {
      BlockIsCovered(norm, src, inp);
      ct :| BlockUnder(ct, norm, src, inp);
      assert Matched(ct, dt, norm, t, src);
    }
    dst := new Byte[numDeltas](_ => 0);
    r := DecompressUsingDTable(dst, inp, dt, ct, norm, t, src);
  }

  /** ANSDecodeDeltas on any input. On the block of as many deltas as are asked for it gives them
      back; it cannot give back fewer, and asked for more it gives them followed by whatever the
      buffer held. */
  method AnsDecodeDeltas(inp: seq<Byte>, numDeltas: nat, norm: seq<int>, ghost deltas: seq<Byte>)
    returns (r: Result<seq<Byte>>)
    requires DeltaCounts(norm)
    ensures r.Ok? ==> |r.value| == numDeltas && 255 !in r.value
    ensures |deltas| >= 3 && IsDeltaBlock(norm, deltas, inp) ==>
              && (|deltas| > numDeltas ==> r == Err("dstSize_tooSmall"))
              && (|deltas| == numDeltas ==> r == Ok(deltas))
              && (|deltas| < numDeltas && r.Ok? ==> deltas <= r.value)
  {
    hide IsDeltaBlock;
    if IsDeltaBlock(norm, deltas, inp) {
      BlockIsCovered(norm, deltas, inp);
    }
    var size, dst := DecodeDeltas(inp, numDeltas, norm, deltas);
    if size.Err? {
      return Err(size.error);
    }
    assert dst[..numDeltas] == dst[..];
    for i := 0 to numDeltas
      invariant 255 !in dst[..i]
    {
      if dst[i] == 255 {
        assert dst[..][i] == 255;
        return Err("Bad delta detected");
      }
    }
    r := Ok(dst[..]);
  }

  /** Park deltas survive compression and decompression exactly when each has an entry. */
  method RoundTrip(deltas: seq<Byte>, norm: seq<int>) returns (r: Result<seq<Byte>>)
    requires DeltaCounts(norm) && |deltas| >= 3
    ensures r == if Covered(norm, deltas) then Ok(deltas) else Err(NO_ENTRY)
  {
    hide DeltaCounts, IsDeltaBlock, Covered;
    r := AnsEncodeDeltas(deltas, norm);
    if r.Ok? {
      r := AnsDecodeDeltas(r.value, |deltas|, norm, deltas);
    }
  }
}
