/** Parks: runs of 2048 line points, stored as the first point, fixed-width stubs of the gaps and the
    compressed high parts of the gaps, in a record of fixed size. */
module Parks {
  import opened Powers
  import opened PositionWidth
  import opened Sequences
  import opened Wrappers
  import opened Bytes
  import opened Spread
  import opened BitStream
  import opened FseBlock
  import opened AnsDeltas
  import opened ParkBits

  const ENTRIES_PER_PARK: nat := 2048
  const STUB_MINUS_BITS: nat := 3
  // ----- cutting the sorted points into parks

  datatype ParkData = ParkData(index: nat, points: seq<nat>)

  /** The points of park i. */
  function ParkPoints(points: seq<nat>, i: nat): seq<nat>
    requires ENTRIES_PER_PARK * i <= |points|
  {
    var end := ENTRIES_PER_PARK * (i + 1);
    points[ENTRIES_PER_PARK * i..if end <= |points| then end else |points|]
  }

  /** The parks that n points fill, the last one perhaps in part. */
  ghost predicate AreParks(parks: seq<ParkData>, points: seq<nat>) {
    && |parks| == (|points| + ENTRIES_PER_PARK - 1) / ENTRIES_PER_PARK
    && forall i :: 0 <= i < |parks| ==> ENTRIES_PER_PARK * i < |points| && parks[i] == ParkData(i, ParkPoints(points, i))
  }

  /** The slicing thread after n points: full parks handed on, the current one in hand. */
  ghost predicate Slicing(parks: seq<ParkData>, park: ParkData, points: seq<nat>, n: nat) {
    && n <= |points| && park.index == |parks| == (if n == 0 then 0 else (n - 1) / ENTRIES_PER_PARK)
    && ENTRIES_PER_PARK * park.index <= n && park.points == points[ENTRIES_PER_PARK * park.index..n]
    && forall i :: 0 <= i < |parks| ==>
         ENTRIES_PER_PARK * (i + 1) <= n && parks[i] == ParkData(i, points[ENTRIES_PER_PARK * i..ENTRIES_PER_PARK * (i + 1)])
  }

  /** The slicing thread's step for one point. */
  method SlicePoint(parks0: seq<ParkData>, park0: ParkData, point: nat, index: nat, ghost points: seq<nat>)
    returns (parks: seq<ParkData>, park: ParkData)
    requires index < |points| && point == points[index] && Slicing(parks0, park0, points, index)
    ensures Slicing(parks, park, points, index + 1)
  {
    parks, park := parks0, park0;
    if index % ENTRIES_PER_PARK == 0 {
      if index != 0 {
        parks := parks + [park];
        park := park.(index := park.index + 1);
      }
      park := park.(points := []);
    }
    park := park.(points := park.points + [point]);
  }

  /** The points whose position does not overflow. */
  function InRange(points: seq<nat>): seq<nat> {
    if |points| <= MAX_POSITION then points else points[..MAX_POSITION]
  }

  /** Slices blocks of sorted points, however they are cut, into parks. */
  method Slice(blocks: seq<seq<nat>>, offsets: seq<nat>) returns (parks: seq<ParkData>)
    requires |offsets| == |blocks| && forall b :: 0 <= b < |blocks| ==> offsets[b] == |Flatten(blocks[..b])|
    ensures AreParks(parks, InRange(Flatten(blocks)))
  {
    hide Pow2, Slicing;
    ghost var all := Flatten(blocks);
    ghost var points := InRange(all);
    parks := [];
    var park := ParkData(0, []);
    NothingSliced(points);
    for b := 0 to |blocks|
      invariant Slicing(parks, park, points, Least(|Flatten(blocks[..b])|, |points|))
    {
      FlattenAt(blocks, b);
      parks, park := SliceBlock(parks, park, blocks[b], offsets[b], all);
    }
    assert blocks[..|blocks|] == blocks;
    if park.points != [] {
      parks := parks + [park];
    }
    AllSliced(parks, park, points);
  }

  function Least(a: nat, b: nat): nat {
    if a < b then a else b
  }

  method SliceBlock(parks0: seq<ParkData>, park0: ParkData, block: seq<nat>, offset: nat, ghost all: seq<nat>)
    returns (parks: seq<ParkData>, park: ParkData)
    requires offset + |block| <= |all| && all[offset..offset + |block|] == block
    requires Slicing(parks0, park0, InRange(all), Least(offset, |InRange(all)|))
    ensures Slicing(parks, park, InRange(all), Least(offset + |block|, |InRange(all)|))
  {
    hide Pow2, Slicing;
    parks, park := parks0, park0;
    var index := offset;
    for i := 0 to |block|
      invariant index == offset + i && (i > 0 ==> index <= MAX_POSITION)
      invariant Slicing(parks, park, InRange(all), Least(index, |InRange(all)|))
    {
      if index >= MAX_POSITION {
        break;
      }
      assert block[i] == all[offset + i];
      parks, park := SlicePoint(parks, park, block[i], index, InRange(all));
      index := index + 1;
    }
  }

  lemma NothingSliced(points: seq<nat>)
    ensures Slicing([], ParkData(0, []), points, 0)
  {
  }

  lemma AllSliced(parks: seq<ParkData>, park: ParkData, points: seq<nat>)
    requires if park.points != [] then |parks| > 0 && Slicing(parks[..|parks| - 1], park, points, |points|)
             && parks[|parks| - 1] == park
             else Slicing(parks, park, points, |points|)
    ensures AreParks(parks, points)
  {
    if |points| == 0 {
    } else {
      var q, r := (|points| - 1) / ENTRIES_PER_PARK, (|points| - 1) % ENTRIES_PER_PARK;
      assert |points| - 1 == ENTRIES_PER_PARK * q + r;
      assert (|points| + ENTRIES_PER_PARK - 1) / ENTRIES_PER_PARK == q + 1;
    }
  }

  // ----- the gaps of one park

  predicate Ascending(points: seq<nat>) {
    forall i, j :: 0 <= i < j < |points| ==> points[i] <= points[j]
  }

  function Gap(points: seq<nat>, i: nat): nat
    requires Ascending(points) && i + 1 < |points|
  {
    points[i + 1] - points[i]
  }

  /** The low parts of the gaps, w bits each. */
  function Stubs(points: seq<nat>, w: nat, n: nat): (s: seq<nat>)
    requires Ascending(points) && n < |points|
    ensures |s| == n && forall i :: 0 <= i < n ==> s[i] < Pow2(w)
  {
    if n == 0 then []
    else
      LowBelow(Gap(points, n - 1), w);
      Stubs(points, w, n - 1) + [Low(Gap(points, n - 1), w)]
  }

  /** The high parts. */
  function Highs(points: seq<nat>, w: nat, n: nat): (s: seq<nat>)
    requires Ascending(points) && n < |points|
    ensures |s| == n
  {
    if n == 0 then [] else Highs(points, w, n - 1) + [Shr(Gap(points, n - 1), w)]
  }

  /** The points that a first point and the parts of the gaps give. */
  function Rebuilt(first: nat, highs: seq<nat>, stubs: seq<nat>, w: nat, n: nat): (p: seq<nat>)
    requires n <= |highs| == |stubs|
    ensures |p| == n + 1
  {
    if n == 0 then [first]
    else
      var before := Rebuilt(first, highs, stubs, w, n - 1);
      before + [before[n - 1] + Shl(highs[n - 1], w) + stubs[n - 1]]
  }

  lemma {:induction false} GapParts(points: seq<nat>, w: nat, n: nat, i: nat)
    requires Ascending(points) && i < n < |points|
    ensures Highs(points, w, n)[i] == Shr(Gap(points, i), w) && Stubs(points, w, n)[i] == Low(Gap(points, i), w)
  {
    if i < n - 1 {
      GapParts(points, w, n - 1, i);
    }
  }

  /** Nothing is lost: the first point and the two parts of every gap give all points back. */
  lemma {:induction false} PointsRebuilt(points: seq<nat>, w: nat, m: nat, n: nat)
    requires Ascending(points) && n <= m < |points|
    ensures Rebuilt(points[0], Highs(points, w, m), Stubs(points, w, m), w, n) == points[..n + 1]
  {
    if n > 0 {
      PointsRebuilt(points, w, m, n - 1);
      GapParts(points, w, m, n - 1);
      ShiftBack(Gap(points, n - 1), w);
    }
  }

  /** The loop over the points of a park. It fails exactly when the high part of some gap is not a byte. */
  method SplitGaps(points: seq<nat>, w: nat) returns (r: Result<seq<Byte>>, stubBits: ParkBits)
    requires |points| > 0 && Ascending(points) && 1 <= w <= 61
    ensures r.Err? <==> WideGap(points, w)
    ensures r.Err? ==> r.error == "small_delta >= 256"
    ensures r.Ok? ==>
              && r.value == Highs(points, w, |points| - 1)
              && stubBits.Valid() && stubBits.Content() == Packed(Stubs(points, w, |points| - 1), w)
              && stubBits.Size() == (|points| - 1) * w && (stubBits.values != [] ==> stubBits.lastSize > 0)
  {
    hide Shr, Low, Pow2, Packed;
    stubBits := new ParkBits();
    var deltas: seq<Byte> := [];
    NothingPacked(points, w);
    for i := 0 to |points| - 1
      invariant stubBits.Valid() && fresh(stubBits)
      invariant deltas == Highs(points, w, i) && stubBits.Content() == Packed(Stubs(points, w, i), w)
      invariant stubBits.values != [] ==> stubBits.lastSize > 0
      invariant forall j :: 0 <= j < i ==> Shr(Gap(points, j), w) < 256
    {
      var bigDelta := points[i + 1] - points[i];
      var stub, smallDelta := Low(bigDelta, w), Shr(bigDelta, w);
      if smallDelta >= 256 {
        assert Shr(Gap(points, i), w) >= 256;
        return Err("small_delta >= 256"), stubBits;
      }
      deltas := deltas + [smallDelta];
      LowBelow(bigDelta, w);
      StubPacked(points, w, i);
      stubBits.AppendValue(stub, w);
    }
    SizeOfContent(stubBits);
    r := Ok(deltas);
  }

  lemma NothingPacked(points: seq<nat>, w: nat)
    requires |points| > 0 && Ascending(points)
    ensures Packed(Stubs(points, w, 0), w) == EMPTY
  {
  }

  lemma StubPacked(points: seq<nat>, w: nat, i: nat)
    requires Ascending(points) && i + 1 < |points|
    ensures Packed(Stubs(points, w, i + 1), w) == Behind(Packed(Stubs(points, w, i), w), Low(Gap(points, i), w), w)
  {
    var s := Stubs(points, w, i + 1);
    assert s[..|s| - 1] == Stubs(points, w, i);
  }

  lemma SizeOfContent(b: ParkBits)
    requires b.Valid()
    ensures b.Content().length == b.Size()
  {
  }

  // ----- the record of one park

  /** `CalculateLinePointSize`, `CalculateStubsSize`, `CalculateMaxDeltasSize`: the last from averages of
      5.6 bits for table 1 and 3.5 bits for the others, over 2047 deltas. */
  function LinePointSize(k: nat): nat {
    (2 * k + 7) / 8
  }

  function StubsSize(k: nat): nat
    requires k >= STUB_MINUS_BITS
  {
    ((ENTRIES_PER_PARK - 1) * (k - STUB_MINUS_BITS) + 7) / 8
  }

  function MaxDeltasSize(tableIndex: nat): nat {
    if tableIndex == 1 then 1433 else 896
  }

  function ParkSize(k: nat, tableIndex: nat): nat
    requires k >= STUB_MINUS_BITS
  {
    LinePointSize(k) + StubsSize(k) + MaxDeltasSize(tableIndex)
  }

  /** The sections are as long as their contents need: 2k bits for the first point and k - 3 for each of 2047
      stubs; the records of the usual k. */
  lemma RecordSizes(k: nat)
    requires k >= 4
    ensures 8 * LinePointSize(k) - 8 < 2 * k <= 8 * LinePointSize(k)
    ensures 8 * StubsSize(k) - 8 < 2047 * (k - 3) <= 8 * StubsSize(k)
    ensures ParkSize(k, 1) == LinePointSize(k) + StubsSize(k) + 1433
    ensures forall t: nat :: t != 1 ==> ParkSize(k, t) == LinePointSize(k) + StubsSize(k) + 896
    ensures ParkSize(32, 1) == 8862 && ParkSize(32, 2) == 8325
  {
  }

  /** `IntTo16Bytes(first << (128 - 2 * k))`, of which the first bytes are kept. */
  function FirstBytes(first: nat, k: nat): (s: seq<Byte>)
    requires 2 * k <= 128
    ensures |s| == LinePointSize(k)
  {
    BytesBE(Shl(first, 128 - 2 * k), 16)[..LinePointSize(k)]
  }

  /** The stub section: the stubs from its top, zeros behind them. */
  ghost predicate StubsStored(section: seq<Byte>, points: seq<nat>, k: nat)
    requires Ascending(points) && |points| > 0 && k >= STUB_MINUS_BITS
  {
    var w, n := k - STUB_MINUS_BITS, |points| - 1;
    && |section| == StubsSize(k) && n * w <= 8 * |section|
    && BE(section) == Shl(Packed(Stubs(points, w, n), w).value, 8 * |section| - n * w)
  }

  function SizeField(low: nat, high: nat): nat {
    low + 256 * high
  }

  /** The delta section: a size, whose top bit tells raw deltas from a compressed block, and the deltas. */
  ghost predicate DeltasStored(tail: seq<Byte>, highs: seq<nat>, norm: seq<int>)
    requires Counts(norm)
  {
    && |tail| >= 2 && (forall i :: 0 <= i < |highs| ==> highs[i] < 256)
    && var size := SizeField(tail[0], tail[1]);
       if size >= 0x8000 then size - 0x8000 == |highs| && 2 + |highs| <= |tail| && tail[2..2 + |highs|] == highs
       else 2 + size <= |tail| && |highs| >= 3 && IsDeltaBlock(norm, highs, tail[2..2 + size])
  }

  /** What a reader of the record finds in its parts. */
  ghost predicate IsPark(buffer: seq<Byte>, points: seq<nat>, k: nat, norm: seq<int>)
    requires Ascending(points) && |points| > 0 && 4 <= k <= 64 && Counts(norm)
  {
    var a := LinePointSize(k);
    var b := a + StubsSize(k);
    && b <= |buffer|
    && Shr(BE(buffer[..a]), 8 * a - 2 * k) == points[0]
    && StubsStored(buffer[a..b], points, k)
    && DeltasStored(buffer[b..], Highs(points, k - STUB_MINUS_BITS, |points| - 1), norm)
  }

  lemma FirstPoint(first: nat, k: nat)
    requires first < Pow2(2 * k) && k <= 64
    ensures Shr(BE(FirstBytes(first, k)), 8 * LinePointSize(k) - 2 * k) == first
  {
    hide Shl, Shr, BE, BytesBE, Low, Pow2;
    var x, n := Shl(first, 128 - 2 * k), LinePointSize(k);
    ShlBelow(first, 2 * k, 128 - 2 * k);
    BEOfBytes(x, 16);
    LowOfSmall(x, 128);
    BEPrefix(BytesBE(x, 16), n);
    PartShift(first, 128 - 2 * k, 128 - 8 * n);
    ShlThenShr(first, 8 * n - 2 * k);
  }

  lemma {:induction false} BEZeros(n: nat)
    ensures BE(seq(n, _ => 0)) == 0
  {
    if n > 0 {
      var z: seq<Byte> := seq(n, _ => 0);
      assert z[..n - 1] == seq(n - 1, _ => 0);
      BEZeros(n - 1);
    }
  }

  /** The stub section: the packed stubs, then zeros. */
  lemma StubSection(bytes: seq<Byte>, v: nat, length: nat, size: nat)
    requires |bytes| == (length + 7) / 8 <= size && BE(bytes) == Shl(v, 8 * |bytes| - length)
    ensures BE(bytes + seq(size - |bytes|, _ => 0)) == Shl(v, 8 * size - length)
  {
    var zeros: seq<Byte> := seq(size - |bytes|, _ => 0);
    BEZeros(size - |bytes|);
    BEAppend(bytes, zeros);
    ShlShl(v, 8 * |bytes| - length, 8 * (size - |bytes|));
  }

  lemma StubsFit(n: nat, k: nat)
    requires n < ENTRIES_PER_PARK && k >= STUB_MINUS_BITS
    ensures n * (k - STUB_MINUS_BITS) <= 8 * StubsSize(k) && (n * (k - STUB_MINUS_BITS) + 7) / 8 <= StubsSize(k)
  {
    MulMonotone(n, ENTRIES_PER_PARK - 1, k - STUB_MINUS_BITS);
  }

  /** The bytes that stand for the deltas, without their size: raw for fewer than three, else their block. */
  ghost predicate DeltaBytes(bytes: seq<Byte>, highs: seq<nat>, norm: seq<int>)
    requires Counts(norm)
  {
    && (forall i :: 0 <= i < |highs| ==> highs[i] < 256)
    && if |highs| <= 2 then bytes == highs else IsDeltaBlock(norm, highs, bytes)
  }

  lemma DeltaBytesUnique(bytes: seq<Byte>, bytes': seq<Byte>, highs: seq<nat>, norm: seq<int>)
    requires DeltaCounts(norm) && Counts(norm) && DeltaBytes(bytes, highs, norm) && DeltaBytes(bytes', highs, norm)
    ensures bytes == bytes'
  {
    hide IsDeltaBlock;
    if |highs| > 2 {
      BlockUnique(norm, highs, bytes, bytes');
    }
  }

  /** With the two bytes of their size the deltas need more than the record keeps for them. */
  ghost predicate Overflows(highs: seq<nat>, norm: seq<int>, tableIndex: nat)
    requires Counts(norm)
  {
    exists bytes: seq<Byte> :: DeltaBytes(bytes, highs, norm) && 2 + |bytes| > if tableIndex == 1 then 1433 else 896
  }

  lemma OverflowsIff(bytes: seq<Byte>, highs: seq<nat>, norm: seq<int>, tableIndex: nat)
    requires DeltaCounts(norm) && Counts(norm) && DeltaBytes(bytes, highs, norm)
    ensures Overflows(highs, norm, tableIndex) <==> 2 + |bytes| > MaxDeltasSize(tableIndex)
  {
    hide DeltaBytes;
    if Overflows(highs, norm, tableIndex) {
      var other: seq<Byte> :| DeltaBytes(other, highs, norm) && 2 + |other| > MaxDeltasSize(tableIndex);
      DeltaBytesUnique(bytes, other, highs, norm);
    }
  }

  /** Up to 499 deltas never overflow a record, whatever the table and the distribution. */
  lemma FewDeltasFit(highs: seq<nat>, norm: seq<int>, tableIndex: nat)
    requires DeltaCounts(norm) && Counts(norm) && |highs| <= 499
    ensures !Overflows(highs, norm, tableIndex)
  {
    forall bytes: seq<Byte> | DeltaBytes(bytes, highs, norm)
      ensures 2 + |bytes| <= 896
    {
      hide IsDeltaBlock;
      if |highs| > 2 {
        BlockFits(norm, highs, bytes);
      }
    }
    hide DeltaBytes;
  }

  /** The deltas as they are stored: compressed when that is possible, with their size in front. */
  method StoreDeltas(deltas: seq<Byte>, norm: seq<int>) returns (r: Result<seq<Byte>>)
    requires DeltaCounts(norm) && |deltas| < ENTRIES_PER_PARK
    ensures Counts(norm)
    ensures r.Ok? <==> |deltas| <= 2 || Covered(norm, deltas)
    ensures r.Ok? ==> DeltasStored(r.value, deltas, norm) && DeltaBytes(r.value[2..], deltas, norm)
    ensures r.Err? ==> r.error == NO_ENTRY
  {
    hide IsDeltaBlock, DeltaCounts, Covered;
    DeltaCountsAreCounts(norm);
    var block := AnsEncodeDeltas(deltas, norm);
    if block.Err? {
      return block;
    }
    var out := block.value;
    var sized: seq<Byte>;
    if |out| == 0 {
      sized := [|deltas| % 256, (|deltas| + 0x8000) / 256] + deltas;
      assert sized[2..2 + |deltas|] == deltas && sized[2..] == deltas;
    } else {
      sized := [|out| % 256, |out| / 256] + out;
      assert sized[2..2 + |out|] == out && sized[2..] == out;
    }
    r := Ok(sized);
  }

  lemma DeltaCountsAreCounts(norm: seq<int>)
    requires DeltaCounts(norm)
    ensures Counts(norm)
  {
  }

  /** Zeros behind the deltas do not matter. */
  lemma DeltasBefore(sized: seq<Byte>, zeros: seq<Byte>, highs: seq<nat>, norm: seq<int>)
    requires Counts(norm) && DeltasStored(sized, highs, norm)
    ensures DeltasStored(sized + zeros, highs, norm)
  {
    hide IsDeltaBlock;
    var size := SizeField(sized[0], sized[1]);
    if size >= 0x8000 {
      assert (sized + zeros)[2..2 + |highs|] == sized[2..2 + |highs|];
    } else {
      assert (sized + zeros)[2..2 + size] == sized[2..2 + size];
    }
  }

  /** A record is a park when its parts are. */
  lemma ParkOf(first: seq<Byte>, stubs: seq<Byte>, tail: seq<Byte>, points: seq<nat>, k: nat, norm: seq<int>)
    requires Ascending(points) && |points| > 0 && 4 <= k <= 64 && Counts(norm)
    requires points[0] < Pow2(2 * k) && first == FirstBytes(points[0], k) && StubsStored(stubs, points, k)
    requires DeltasStored(tail, Highs(points, k - STUB_MINUS_BITS, |points| - 1), norm)
    ensures IsPark(first + stubs + tail, points, k, norm)
  {
    StubsWhole(stubs, points, k);
    hide Shl, Shr, BE, Stubs, Highs, Pow2, StubsStored, DeltasStored, FirstBytes, Ascending, Counts;
    var buffer, b := first + stubs + tail, |first| + |stubs|;
    FirstPoint(points[0], k);
    assert buffer[..|first|] == first && buffer[|first|..b] == stubs && buffer[b..] == tail;
  }

  lemma PartsOf(buffer: seq<Byte>, points: seq<nat>, k: nat, norm: seq<int>)
    requires Ascending(points) && |points| > 0 && 4 <= k <= 64 && Counts(norm) && IsPark(buffer, points, k, norm)
    ensures var a := LinePointSize(k);
            var b := a + StubsSize(k);
            && b <= |buffer| && Shr(BE(buffer[..a]), 8 * a - 2 * k) == points[0] && StubsStored(buffer[a..b], points, k)
            && DeltasStored(buffer[b..], Highs(points, k - STUB_MINUS_BITS, |points| - 1), norm)
  {
  }

  lemma StubsWhole(stubs: seq<Byte>, points: seq<nat>, k: nat)
    requires Ascending(points) && |points| > 0 && k >= STUB_MINUS_BITS && StubsStored(stubs, points, k)
    ensures |stubs| == StubsSize(k)
  {
  }

  /** The distribution has a share for every delta that is a byte. */
  predicate Foreseen(norm: seq<int>, highs: seq<nat>) {
    forall i :: 0 <= i < |highs| && highs[i] < 256 ==> highs[i] < |norm| && norm[highs[i]] != 0
  }

  lemma ForeseenIsCovered(norm: seq<int>, deltas: seq<Byte>)
    ensures Foreseen(norm, deltas) <==> Covered(norm, deltas)
  {
  }

  /** Some gap is too wide for a small delta. */
  predicate WideGap(points: seq<nat>, w: nat)
    requires Ascending(points)
  {
    exists i :: 0 <= i < |points| - 1 && Shr(Gap(points, i), w) >= 256
  }

  /** What the high parts of the gaps must be like. */
  ghost predicate Writable(points: seq<nat>, k: nat, tableIndex: nat, norm: seq<int>)
    requires Ascending(points) && |points| > 0 && k >= STUB_MINUS_BITS && Counts(norm)
  {
    var highs := Highs(points, k - STUB_MINUS_BITS, |points| - 1);
    && !WideGap(points, k - STUB_MINUS_BITS) && (|points| <= 3 || Foreseen(norm, highs))
    && !Overflows(highs, norm, tableIndex)
  }

  /** A park of at most 500 points overflows never. */
  lemma SmallParkWritable(points: seq<nat>, k: nat, tableIndex: nat, norm: seq<int>)
    requires Ascending(points) && 0 < |points| <= 500 && k >= STUB_MINUS_BITS && DeltaCounts(norm) && Counts(norm)
    requires !WideGap(points, k - STUB_MINUS_BITS)
    requires |points| <= 3 || Foreseen(norm, Highs(points, k - STUB_MINUS_BITS, |points| - 1))
    ensures Writable(points, k, tableIndex, norm)
  {
    hide Overflows, WideGap, Foreseen, DeltaCounts, Counts;
    FewDeltasFit(Highs(points, k - STUB_MINUS_BITS, |points| - 1), norm, tableIndex);
  }

  /** `WritePark` and the loop that prepares it: a record of fixed size from which the points can be read,
      unless some high part is not a byte, one that is has no table entry, or the record overflows. */
  method WritePark(points: seq<nat>, k: nat, tableIndex: nat, norm: seq<int>) returns (r: Result<seq<Byte>>)
    requires 0 < |points| <= ENTRIES_PER_PARK && Ascending(points) && 4 <= k <= 64 && points[0] < Pow2(2 * k)
    requires DeltaCounts(norm)
    ensures r.Ok? <==> Writable(points, k, tableIndex, norm)
    ensures r.Ok? ==> |r.value| == ParkSize(k, tableIndex) && IsPark(r.value, points, k, norm)
    ensures r.Err? ==> r.error in {"small_delta >= 256", NO_ENTRY, "Overflowed park buffer"}
    ensures r == Err("small_delta >= 256") <==> WideGap(points, k - STUB_MINUS_BITS)
    ensures r == Err(NO_ENTRY) <==>
              && |points| > 3 && !WideGap(points, k - STUB_MINUS_BITS)
              && !Foreseen(norm, Highs(points, k - STUB_MINUS_BITS, |points| - 1))
    ensures r == Err("Overflowed park buffer") <==>
              && !WideGap(points, k - STUB_MINUS_BITS)
              && (|points| <= 3 || Foreseen(norm, Highs(points, k - STUB_MINUS_BITS, |points| - 1)))
              && Overflows(Highs(points, k - STUB_MINUS_BITS, |points| - 1), norm, tableIndex)
  {
    hide Shl, Shr, BE, Packed, Stubs, Highs, Pow2, IsDeltaBlock, FirstBytes, DeltaCounts, IsPark, Ascending;
    hide Covered, Foreseen, WideGap, Overflows, DeltaBytes;
    DeltaCountsAreCounts(norm);
    var w := k - STUB_MINUS_BITS;
    var deltas, stubBits := SplitGaps(points, w);
    if deltas.Err? {
      return Err(deltas.error);
    }
    ForeseenIsCovered(norm, deltas.value);
    var first := FirstBytes(points[0], k);
    StubsFit(|points| - 1, k);
    var stubBytes := stubBits.ToBytes();
    StubSection(stubBytes, Packed(Stubs(points, w, |points| - 1), w).value, (|points| - 1) * w, StubsSize(k));
    var stubs := stubBytes + seq(StubsSize(k) - |stubBytes|, _ => 0);
    assert StubsStored(stubs, points, k);
    var stored := StoreDeltas(deltas.value, norm);
    if stored.Err? {
      return stored;
    }
    var sized := stored.value;
    OverflowsIff(sized[2..], deltas.value, norm, tableIndex);
    var used := |first| + |stubs| + |sized|;
    if used > ParkSize(k, tableIndex) {
      return Err("Overflowed park buffer");
    }
    var zeros: seq<Byte> := seq(ParkSize(k, tableIndex) - used, _ => 0);
    hide StubsStored, DeltasStored, StubsSize, LinePointSize;
    DeltasBefore(sized, zeros, deltas.value, norm);
    ParkOf(first, stubs, sized + zeros, points, k, norm);
    r := Ok(first + stubs + (sized + zeros));
  }

  /** Reading a record back: the first point, then stub and delta of every gap. */
  method ReadPark(buffer: seq<Byte>, numPoints: nat, k: nat, norm: seq<int>,
                  ghost points: seq<nat>) returns (r: Result<seq<nat>>)
    requires 4 <= k <= 64 && DeltaCounts(norm) && 0 < numPoints <= ENTRIES_PER_PARK && Ascending(points)
    requires |buffer| >= LinePointSize(k) + StubsSize(k) + 2
    ensures |points| == numPoints && IsPark(buffer, points, k, norm) ==> r == Ok(points)
  {
    hide Shl, Shr, BE, StubsStored, DeltasStored, Highs, Pow2, IsDeltaBlock, DeltaCounts, Ascending, IsPark;
    hide StubsSize, LinePointSize, Counts;
    var w, n, a := k - STUB_MINUS_BITS, numPoints - 1, LinePointSize(k);
    var b := a + StubsSize(k);
    LinePointBits(k);
    DeltaCountsAreCounts(norm);
    ghost var good := |points| == numPoints && IsPark(buffer, points, k, norm);
    if good {
      PartsOf(buffer, points, k, norm);
    }
    var deltas := LoadDeltas(buffer[b..], n, norm, good, if good then Highs(points, w, n) else []);
    if deltas.Err? {
      return Err(deltas.error);
    }
    r := JoinGaps(Shr(BE(buffer[..a]), 8 * a - 2 * k), deltas.value, buffer[a..b], k, good, points);
  }

  lemma LinePointBits(k: nat)
    ensures 8 * LinePointSize(k) >= 2 * k
  {
  }

  /** The loop over the gaps. */
  method JoinGaps(first: nat, deltas: seq<Byte>, section: seq<Byte>, k: nat, ghost good: bool, ghost points: seq<nat>)
    returns (r: Result<seq<nat>>)
    requires k >= 4 && |section| == StubsSize(k) && |deltas| < ENTRIES_PER_PARK && Ascending(points)
    requires good ==> |points| == |deltas| + 1 && first == points[0] && StubsStored(section, points, k)
                      && deltas == Highs(points, k - STUB_MINUS_BITS, |deltas|)
    ensures r.Ok? && (good ==> r.value == points)
  {
    hide Shl, Shr, BE, Stubs, Highs, Pow2, Low, FieldAt;
    var w, n := k - STUB_MINUS_BITS, |deltas|;
    StubsFit(n, k);
    var out: seq<nat> := [first];
    for i := 0 to n
      invariant |out| == i + 1
      invariant good ==> out == Rebuilt(points[0], deltas, Stubs(points, w, n), w, i)
    {
      MulMonotone(i + 1, n, w);
      if good {
        FieldFound(section, Stubs(points, w, n), w, i);
      }
      out := out + [out[i] + Shl(deltas[i], w) + FieldAt(section, i, w)];
    }
    if good {
      PointsRebuilt(points, w, n, n);
      assert points[..n + 1] == points;
    }
    r := Ok(out);
  }

  /** The deltas of a record. */
  method LoadDeltas(tail: seq<Byte>, n: nat, norm: seq<int>, ghost good: bool,
                    ghost highs: seq<nat>) returns (r: Result<seq<Byte>>)
    requires DeltaCounts(norm) && |tail| >= 2
    requires good ==> |highs| == n && DeltasStored(tail, highs, norm)
    ensures r.Ok? ==> |r.value| == n
    ensures good ==> r.Ok? && r.value == highs
  {
    hide IsDeltaBlock, DeltaCounts, Counts;
    DeltaCountsAreCounts(norm);
    var size := SizeField(tail[0], tail[1]);
    ghost var expected: seq<Byte> := if good then highs else [];
    if size >= 0x8000 {
      if size - 0x8000 != n || 2 + n > |tail| {
        return Err("bad delta size");
      }
      r := Ok(tail[2..2 + n]);
    } else {
      if 2 + size > |tail| {
        return Err("bad delta size");
      }
      r := AnsDecodeDeltas(tail[2..2 + size], n, norm, expected);
    }
  }

  /** A gap whose high part is 255 passes the check of the small deltas, and no distribution of at most 255
      symbols has an entry for it. */
  lemma NoEntryFor255(norm: seq<int>, w: nat, gap: nat)
    requires DeltaCounts(norm) && gap == Shl(255, w)
    ensures var p: seq<nat> := [0, gap, gap, gap]; Ascending(p) && !WideGap(p, w) && !Foreseen(norm, Highs(p, w, 3))
  {
    var p: seq<nat> := [0, gap, gap, gap];
    ShlThenShr(255, w);
    NoGap(w);
    hide Shl, Shr;
    assert Gap(p, 0) == gap && Gap(p, 1) == 0 && Gap(p, 2) == 0;
    GapParts(p, w, 3, 0);
  }

  lemma NoGap(w: nat)
    ensures Shr(0, w) == 0
  {
    ShrIsDiv(0, w);
  }

  /** Four points of 2k bits that pass the check and cannot be written, whatever the distribution. */
  method UnforeseenGap(k: nat, tableIndex: nat, norm: seq<int>) returns (points: seq<nat>, r: Result<seq<Byte>>)
    requires 5 <= k <= 64 && DeltaCounts(norm)
    ensures |points| == 4 && forall i :: 0 <= i < 4 ==> points[i] < Pow2(2 * k)
    ensures r == Err(NO_ENTRY)
  {
    hide Shl, Pow2, DeltaCounts, Highs, Foreseen, WideGap, Ascending;
    var gap: nat := Shl(255, k - STUB_MINUS_BITS);
    GapBelow(k);
    points := [0, gap, gap, gap];
    NoEntryFor255(norm, k - STUB_MINUS_BITS, gap);
    r := WritePark(points, k, tableIndex, norm);
  }

  lemma GapBelow(k: nat)
    requires k >= 5
    ensures 0 < Pow2(2 * k) && Shl(255, k - STUB_MINUS_BITS) < Pow2(2 * k)
  {
    assert Pow2(8) == 256;
    ShlBelow(255, 8, k - STUB_MINUS_BITS);
    Pow2Monotone(8 + (k - STUB_MINUS_BITS), 2 * k);
  }

  /** A park loses nothing: what is written is read back, point for point. */
  method ParkRoundTrip(points: seq<nat>, k: nat, tableIndex: nat, norm: seq<int>)
    returns (written: Result<seq<Byte>>, read: Result<seq<nat>>)
    requires 0 < |points| <= ENTRIES_PER_PARK && Ascending(points) && 4 <= k <= 64 && points[0] < Pow2(2 * k)
    requires DeltaCounts(norm)
    ensures written.Ok? <==> Writable(points, k, tableIndex, norm)
    ensures written.Ok? ==> read == Ok(points)
  {
    hide IsPark, DeltaCounts, Foreseen, Ascending, Highs, Pow2, WideGap, Writable, Overflows;
    written := WritePark(points, k, tableIndex, norm);
    if written.Ok? {
      DeltaCountsAreCounts(norm);
      ParkHasTail(written.value, points, k, norm);
      read := ReadPark(written.value, |points|, k, norm, points);
    } else {
      read := Err(written.error);
    }
  }

  lemma ParkHasTail(buffer: seq<Byte>, points: seq<nat>, k: nat, norm: seq<int>)
    requires Ascending(points) && |points| > 0 && 4 <= k <= 64 && Counts(norm) && IsPark(buffer, points, k, norm)
    ensures |buffer| >= LinePointSize(k) + StubsSize(k) + 2
  {
  }
}
