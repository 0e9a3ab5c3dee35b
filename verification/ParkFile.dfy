/** The parks of one table in the plot file: every record at its place, and the table's points read back
    from the file. */
module ParkFile {
  import opened Powers
  import opened PositionWidth
  import opened Sequences
  import opened Wrappers
  import opened Bytes
  import opened Spread
  import opened AnsDeltas
  import opened Parks

  /** `park_out_t` */
  datatype ParkOut = ParkOut(offset: nat, buffer: seq<Byte>)

  /** Where record i of a table starts. */
  function Place(begin: nat, i: nat, size: nat): nat {
    begin + i * size
  }

  lemma PlaceNext(begin: nat, i: nat, size: nat)
    ensures Place(begin, i + 1, size) == Place(begin, i, size) + size
    ensures Place(begin, 0, size) == begin
  {
  }

  lemma PlaceOrder(begin: nat, i: nat, j: nat, size: nat)
    requires i < j
    ensures Place(begin, i, size) + size <= Place(begin, j, size)
  {
    PlaceNext(begin, i, size);
    MulMonotone(i + 1, j, size);
  }

  function NumParks(points: seq<nat>): nat {
    (|points| + ENTRIES_PER_PARK - 1) / ENTRIES_PER_PARK
  }

  lemma ParkFacts(points: seq<nat>, i: nat)
    requires Ascending(points) && i < NumParks(points)
    ensures ENTRIES_PER_PARK * i < |points|
    ensures var p := ParkPoints(points, i);
            0 < |p| <= ENTRIES_PER_PARK && Ascending(p) && p[0] == points[ENTRIES_PER_PARK * i]
            && points[..ENTRIES_PER_PARK * i] + p == points[..ENTRIES_PER_PARK * i + |p|]
    ensures |ParkPoints(points, i)| == Least(ENTRIES_PER_PARK, |points| - ENTRIES_PER_PARK * i)
    ensures i + 1 < NumParks(points) <==> ENTRIES_PER_PARK * i + |ParkPoints(points, i)| < |points|
    ensures i + 1 < NumParks(points) ==> |ParkPoints(points, i)| == ENTRIES_PER_PARK
  {
  }

  /** Sorted line points of 2k bits and a distribution for their deltas. */
  ghost predicate Encodable(points: seq<nat>, k: nat, norm: seq<int>) {
    && Ascending(points) && DeltaCounts(norm) && 4 <= k <= 64
    && forall i :: 0 <= i < |points| ==> points[i] < Pow2(2 * k)
  }

  /** Park i is one that `WritePark` accepts. */
  ghost predicate ParkWritable(points: seq<nat>, i: nat, k: nat, tableIndex: nat, norm: seq<int>)
    requires Ascending(points) && i < NumParks(points) && k >= STUB_MINUS_BITS && Counts(norm)
  {
    ParkFacts(points, i);
    Writable(ParkPoints(points, i), k, tableIndex, norm)
  }

  ghost predicate TableWritable(points: seq<nat>, k: nat, tableIndex: nat, norm: seq<int>)
    requires Ascending(points) && k >= STUB_MINUS_BITS && Counts(norm)
  {
    forall i: nat :: i < NumParks(points) ==> ParkWritable(points, i, k, tableIndex, norm)
  }

  /** Record i in the bytes of the file. */
  ghost predicate Stored(file: seq<Byte>, begin: nat, size: nat, points: seq<nat>, i: nat, k: nat, norm: seq<int>)
    requires Ascending(points) && i < NumParks(points) && 4 <= k <= 64 && Counts(norm)
  {
    ParkFacts(points, i);
    && Place(begin, i + 1, size) <= |file|
    && Place(begin, i, size) <= Place(begin, i + 1, size)
    && IsPark(file[Place(begin, i, size)..Place(begin, i + 1, size)], ParkPoints(points, i), k, norm)
  }

  ghost predicate TableStored(file: seq<Byte>, begin: nat, size: nat, points: seq<nat>, k: nat, norm: seq<int>)
    requires Ascending(points) && 4 <= k <= 64 && Counts(norm)
  {
    forall i: nat :: i < NumParks(points) ==> Stored(file, begin, size, points, i, k, norm)
  }

  /** One record of the park threads. */
  ghost predicate IsRecord(out: ParkOut, begin: nat, size: nat, points: seq<nat>, i: nat, k: nat, norm: seq<int>)
    requires Ascending(points) && i < NumParks(points) && 4 <= k <= 64 && Counts(norm)
  {
    ParkFacts(points, i);
    out.offset == Place(begin, i, size) && |out.buffer| == size && IsPark(out.buffer, ParkPoints(points, i), k, norm)
  }

  /** The park threads: parks become records. An empty park, which they refuse, never reaches them. */
  method MakeRecords(parks: seq<ParkData>, k: nat, tableIndex: nat, norm: seq<int>, begin: nat, ghost points: seq<nat>)
    returns (r: Result<seq<ParkOut>>)
    requires Encodable(points, k, norm) && AreParks(parks, points)
    ensures r.Err? ==> r.error in {"small_delta >= 256", NO_ENTRY, "Overflowed park buffer"}
    ensures Counts(norm)
    ensures r.Ok? <==> TableWritable(points, k, tableIndex, norm)
    ensures r.Ok? ==> |r.value| == NumParks(points)
                      && forall i :: 0 <= i < |r.value| ==> IsRecord(r.value[i], begin, ParkSize(k, tableIndex), points, i, k, norm)
  {
    hide IsPark, DeltaCounts, Foreseen, WideGap, Ascending, Highs, Pow2, ParkSize, Place, Counts, Writable, Overflows;
    DeltaCountsAreCounts(norm);
    var outs: seq<ParkOut> := [];
    for i := 0 to |parks|
      invariant |outs| == i
      invariant forall j :: 0 <= j < i ==> IsRecord(outs[j], begin, ParkSize(k, tableIndex), points, j, k, norm)
      invariant forall j :: 0 <= j < i ==> ParkWritable(points, j, k, tableIndex, norm)
    {
      var park := parks[i];
      ParkFacts(points, i);
      if park.points == [] {
        assert false;
      }
      var buffer := WritePark(park.points, k, tableIndex, norm);
      assert buffer.Ok? <==> ParkWritable(points, i, k, tableIndex, norm);
      if buffer.Err? {
        return Err(buffer.error);
      }
      outs := outs + [ParkOut(Place(begin, park.index, ParkSize(k, tableIndex)), buffer.value)];
    }
    r := Ok(outs);
  }

  /** Record i is at its place, which ends before the first n records do. */
  ghost predicate InPlace(file: seq<Byte>, outs: seq<ParkOut>, begin: nat, size: nat, i: nat, n: nat)
    requires i < n <= |outs| && Place(begin, n, size) <= |file|
  {
    && Place(begin, i, size) <= Place(begin, i + 1, size) <= Place(begin, n, size)
    && file[Place(begin, i, size)..Place(begin, i + 1, size)] == outs[i].buffer
  }

  /** The first n records are at their places. */
  ghost predicate Holds(file: seq<Byte>, outs: seq<ParkOut>, begin: nat, size: nat, n: nat)
    requires n <= |outs|
  {
    && begin <= Place(begin, n, size) <= |file|
    && forall i: nat :: i < n ==> InPlace(file, outs, begin, size, i, n)
  }

  lemma HoldsNext(before: seq<Byte>, after: seq<Byte>, outs: seq<ParkOut>, begin: nat, size: nat, n: nat)
    requires n < |outs| && Holds(before, outs, begin, size, n) && |before| == |after|
    requires Place(begin, n + 1, size) == Place(begin, n, size) + size <= |after|
    requires after[Place(begin, n, size)..Place(begin, n + 1, size)] == outs[n].buffer
    requires forall u :: 0 <= u < Place(begin, n, size) ==> after[u] == before[u]
    ensures Holds(after, outs, begin, size, n + 1)
  {
    hide Place;
    var next := n + 1;
    forall i: nat | i < n
      ensures InPlace(after, outs, begin, size, i, next)
    {
      assert InPlace(before, outs, begin, size, i, n);
      assert after[Place(begin, i, size)..Place(begin, i + 1, size)] == before[Place(begin, i, size)..Place(begin, i + 1, size)];
    }
  }

  /** The writer: every record goes to its offset, and the rest of the file stays as it is. */
  method WriteRecords(file: array<Byte>, outs: seq<ParkOut>, begin: nat, ghost size: nat)
    requires forall i :: 0 <= i < |outs| ==> outs[i].offset == Place(begin, i, size) && |outs[i].buffer| == size
    requires Place(begin, |outs|, size) <= file.Length
    modifies file
    ensures Holds(file[..], outs, begin, size, |outs|)
    ensures file[..begin] == old(file[..begin])
    ensures file[Place(begin, |outs|, size)..] == old(file[Place(begin, |outs|, size)..])
  {
    hide Place, Holds;
    NothingHeld(file[..], outs, begin, size);
    for n := 0 to |outs|
      invariant begin <= Place(begin, n, size) <= Place(begin, |outs|, size)
      invariant forall u :: 0 <= u < file.Length && !(begin <= u < Place(begin, n, size)) ==> file[u] == old(file[u])
      invariant Holds(file[..], outs, begin, size, n)
    {
      PlaceNext(begin, n, size);
      PlaceOrder(begin, n, |outs|, size);
      ghost var before := file[..];
      WriteAt(file, outs[n].offset, outs[n].buffer);
      HoldsNext(before, file[..], outs, begin, size, n);
    }
  }

  lemma NothingHeld(file: seq<Byte>, outs: seq<ParkOut>, begin: nat, size: nat)
    requires Place(begin, |outs|, size) <= |file|
    ensures begin <= Place(begin, 0, size) <= Place(begin, |outs|, size) && Holds(file, outs, begin, size, 0)
  {
  }

  /** `fwrite_at` */
  method WriteAt(file: array<Byte>, offset: nat, buffer: seq<Byte>)
    requires offset + |buffer| <= file.Length
    modifies file
    ensures file[offset..offset + |buffer|] == buffer
    ensures forall u :: 0 <= u < file.Length && !(offset <= u < offset + |buffer|) ==> file[u] == old(file[u])
  {
    for i := 0 to |buffer|
      invariant file[offset..offset + i] == buffer[..i]
      invariant forall u :: 0 <= u < file.Length && !(offset <= u < offset + i) ==> file[u] == old(file[u])
    {
      file[offset + i] := buffer[i];
    }
  }

  /** A table read back, record by record. */
  method ReadTable(file: seq<Byte>, begin: nat, numPoints: nat, k: nat, tableIndex: nat, norm: seq<int>,
                   ghost points: seq<nat>)
    returns (r: Result<seq<nat>>)
    requires Encodable(points, k, norm) && numPoints == |points| && Counts(norm)
    requires TableStored(file, begin, ParkSize(k, tableIndex), points, k, norm)
    ensures r == Ok(points)
  {
    hide IsPark, DeltaCounts, Foreseen, WideGap, Ascending, Highs, Pow2, ParkSize, Place, Counts;
    var out: seq<nat> := [];
    var left, i := numPoints, 0;
    ParksCover(points);
    while left > 0
      invariant 0 <= i <= NumParks(points) && 0 <= left && left + |out| == numPoints
      invariant out == points[..|out|] && (left > 0 <==> i < NumParks(points))
      invariant left > 0 ==> |out| == ENTRIES_PER_PARK * i
    {
      ParkFacts(points, i);
      assert Stored(file, begin, ParkSize(k, tableIndex), points, i, k, norm);
      var count := if left < ENTRIES_PER_PARK then left else ENTRIES_PER_PARK;
      var buffer := file[Place(begin, i, ParkSize(k, tableIndex))..Place(begin, i + 1, ParkSize(k, tableIndex))];
      ParkHasTail(buffer, ParkPoints(points, i), k, norm);
      var park := ReadPark(buffer, count, k, norm, ParkPoints(points, i));
      if park.Err? {
        return park;
      }
      out := out + park.value;
      left := left - count;
      i := i + 1;
    }
    assert points[..|points|] == points;
    r := Ok(out);
  }

  lemma ParksCover(points: seq<nat>)
    ensures |points| > 0 <==> 0 < NumParks(points)
  {
  }

  lemma RecordsStored(file: seq<Byte>, outs: seq<ParkOut>, begin: nat, size: nat, points: seq<nat>, k: nat,
                      norm: seq<int>)
    requires Ascending(points) && 4 <= k <= 64 && Counts(norm) && |outs| == NumParks(points)
    requires forall i :: 0 <= i < |outs| ==> IsRecord(outs[i], begin, size, points, i, k, norm)
    requires Holds(file, outs, begin, size, |outs|)
    ensures TableStored(file, begin, size, points, k, norm)
  {
    hide IsPark, Ascending, Place, Counts;
    forall i: nat | i < NumParks(points)
      ensures Stored(file, begin, size, points, i, k, norm)
    {
      assert InPlace(file, outs, begin, size, i, |outs|);
      assert IsRecord(outs[i], begin, size, points, i, k, norm);
    }
  }

  /** The slicing thread, the park threads and the writer: however the sorted stream of line points is cut
      into blocks, unless a check throws the parks are in the file one after the other, and nothing else in
      the file has changed. */
  method StoreTable(file: array<Byte>, begin: nat, blocks: seq<seq<nat>>, offsets: seq<nat>, k: nat, tableIndex: nat,
                    norm: seq<int>)
    returns (r: Result<nat>)
    requires |offsets| == |blocks| && forall b :: 0 <= b < |blocks| ==> offsets[b] == |Flatten(blocks[..b])|
    requires Encodable(InRange(Flatten(blocks)), k, norm)
    requires Place(begin, NumParks(InRange(Flatten(blocks))), ParkSize(k, tableIndex)) <= file.Length
    modifies file
    ensures r.Ok? <==> TableWritable(InRange(Flatten(blocks)), k, tableIndex, norm)
    ensures r.Err? ==> r.error in {"small_delta >= 256", NO_ENTRY, "Overflowed park buffer"} && file[..] == old(file[..])
    ensures r.Ok? ==> begin <= r.value == Place(begin, NumParks(InRange(Flatten(blocks))), ParkSize(k, tableIndex)) <= file.Length
    ensures r.Ok? ==> file[..begin] == old(file[..begin]) && file[r.value..] == old(file[r.value..])
    ensures r.Ok? ==> TableStored(file[..], begin, ParkSize(k, tableIndex), InRange(Flatten(blocks)), k, norm)
  {
    ghost var points := InRange(Flatten(blocks));
    EncodableFacts(points, k, norm);
    var parks := Slice(blocks, offsets);
    hide IsPark, Pow2, ParkSize, Place, InRange, Encodable, AreParks, Counts, Ascending, IsRecord, Holds, TableStored, TableWritable;
    var outs := MakeRecords(parks, k, tableIndex, norm, begin, points);
    if outs.Err? {
      return Err(outs.error);
    }
    var size := ParkSize(k, tableIndex);
    RecordPlaces(outs.value, begin, size, points, k, norm);
    WriteRecords(file, outs.value, begin, size);
    RecordsStored(file[..], outs.value, begin, size, points, k, norm);
    r := Ok(Place(begin, |outs.value|, size));
  }

  lemma EncodableFacts(points: seq<nat>, k: nat, norm: seq<int>)
    requires Encodable(points, k, norm)
    ensures Ascending(points) && Counts(norm) && 4 <= k <= 64
  {
  }

  lemma RecordPlaces(outs: seq<ParkOut>, begin: nat, size: nat, points: seq<nat>, k: nat, norm: seq<int>)
    requires Ascending(points) && 4 <= k <= 64 && Counts(norm) && |outs| == NumParks(points)
    requires forall i :: 0 <= i < |outs| ==> IsRecord(outs[i], begin, size, points, i, k, norm)
    ensures forall i :: 0 <= i < |outs| ==> outs[i].offset == Place(begin, i, size) && |outs[i].buffer| == size
    ensures begin <= Place(begin, |outs|, size)
  {
    hide IsPark;
  }

  /** The points of a table survive the plot file. */
  method RoundTrip(file: array<Byte>, begin: nat, blocks: seq<seq<nat>>, offsets: seq<nat>, numPoints: nat, k: nat,
                   tableIndex: nat, norm: seq<int>)
    returns (stored: Result<nat>, read: Result<seq<nat>>)
    requires |offsets| == |blocks| && forall b :: 0 <= b < |blocks| ==> offsets[b] == |Flatten(blocks[..b])|
    requires Encodable(InRange(Flatten(blocks)), k, norm) && numPoints == |InRange(Flatten(blocks))|
    requires Place(begin, NumParks(InRange(Flatten(blocks))), ParkSize(k, tableIndex)) <= file.Length
    modifies file
    ensures stored.Ok? <==> TableWritable(InRange(Flatten(blocks)), k, tableIndex, norm)
    ensures stored.Ok? ==> read == Ok(InRange(Flatten(blocks)))
  {
    hide IsPark, Pow2, ParkSize, Place, InRange, Encodable, Counts, Ascending, Stored, TableWritable;
    EncodableFacts(InRange(Flatten(blocks)), k, norm);
    stored := StoreTable(file, begin, blocks, offsets, k, tableIndex, norm);
    if stored.Ok? {
      read := ReadTable(file[..], begin, numPoints, k, tableIndex, norm, InRange(Flatten(blocks)));
    } else {
      read := Err(stored.error);
    }
  }
}
