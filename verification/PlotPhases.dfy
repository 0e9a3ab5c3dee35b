/** Phase 3 from the tables of phase 2 to the final ones: every table is merged with the positions below
    it, sorted by line point and numbered, and the numbers are sorted by key. */
module PlotPhases {
  import opened Powers
  import opened PositionWidth
  import opened Sequences
  import opened Wrappers
  import opened Sorting
  import opened Bitfield
  import opened LinePoints
  import opened MergeBuffer
  import opened MergeProgress
  import opened Compaction
  import opened DiskSorting
  import opened PlotTrees

  /** `phase2::get_pos` */
  function PosOf(e: Entry): nat {
    e.pos
  }

  // ----- what the threads and the sort routine decide

  /** How the merge workers of a table happen to run, through which caches and in which order entries reach
      the sorters, and in which order `std::sort` leaves entries of the same key. */
  datatype Threads = Threads(
    merge: Input -> seq<State>,
    addEntries: seq<Entry> -> seq<Op<Entry>>, sortEntries: seq<Entry> -> seq<Entry>,
    addPoints: seq<LpEntry> -> seq<Op<LpEntry>>, sortPoints: seq<LpEntry> -> seq<LpEntry>,
    addKeys: seq<NpEntry> -> seq<Op<NpEntry>>, sortKeys: seq<NpEntry> -> seq<NpEntry>)

  /** Everything is added once, through caches that exist. */
  ghost predicate AddsAll<T(!new)>(s: seq<T>, ops: seq<Op<T>>) {
    && AddedBy(ops) == multiset(s)
    && forall i :: 0 <= i < |ops| && !ops[i].NewCache? ==> ops[i].cache < NumCaches(ops[..i])
  }

  ghost predicate Adds<T(!new)>(add: seq<T> -> seq<Op<T>>) {
    forall s :: AddsAll(s, add(s))
  }

  ghost predicate Merges(merge: Input -> seq<State>) {
    forall input: Input :: SortedWork(input.work) && InBounds(input) ==> Completes(input, merge(input))
  }

  /** In whatever order things happen, no merge worker loses the race for the end of L. */
  ghost predicate Work(t: Threads) {
    && Merges(t.merge)
    && Adds(t.addEntries) && Adds(t.addPoints) && Adds(t.addKeys)
    && Sorts(t.sortEntries, PosOf) && Sorts(t.sortPoints, PointOf) && Sorts(t.sortKeys, KeyOf)
  }

  // ----- there are such threads

  ghost function Inserted<T(!new)>(s: seq<T>, x: T, key: T -> nat): seq<T> {
    if s != [] && key(x) < key(s[|s| - 1]) then Inserted(s[..|s| - 1], x, key) + [s[|s| - 1]] else s + [x]
  }

  lemma {:induction false} InsertedSorted<T(!new)>(s: seq<T>, x: T, key: T -> nat)
    requires SortedBy(s, key)
    ensures IsSort(s + [x], Inserted(s, x, key), key)
  {
    if s != [] && key(x) < key(s[|s| - 1]) {
      var front, last := s[..|s| - 1], s[|s| - 1];
      InsertedSorted(front, x, key);
      assert s == front + [last];
      SameElements(front + [x], Inserted(front, x, key));
      forall y | y in Inserted(front, x, key)
        ensures key(y) <= key(last)
      {
        assert y in front + [x];
      }
      LastIsMost(Inserted(front, x, key), last, key);
    } else {
      LastIsMost(s, x, key);
    }
  }

  lemma LastIsMost<T(!new)>(s: seq<T>, x: T, key: T -> nat)
    requires SortedBy(s, key) && forall y :: y in s ==> key(y) <= key(x)
    ensures SortedBy(s + [x], key)
  {
  }

  ghost function InsertionSort<T(!new)>(s: seq<T>, key: T -> nat): seq<T> {
    if s == [] then [] else Inserted(InsertionSort(s[..|s| - 1], key), s[|s| - 1], key)
  }

  lemma {:induction false} InsertionSorts<T(!new)>(s: seq<T>, key: T -> nat)
    ensures IsSort(s, InsertionSort(s, key), key)
  {
    if s != [] {
      var front, last := s[..|s| - 1], s[|s| - 1];
      InsertionSorts(front, key);
      InsertedSorted(InsertionSort(front, key), last, key);
      assert s == front + [last];
    }
  }

  function InTurn<T>(s: seq<T>): (ops: seq<Op<T>>)
    ensures |ops| == |s|
  {
    seq(|s|, i requires 0 <= i < |s| => AddTo(0, s[i]))
  }

  lemma {:induction false} InTurnAddsAll<T(!new)>(s: seq<T>)
    ensures AddsAll(s, InTurn(s))
  {
    if s != [] {
      var front := s[..|s| - 1];
      InTurnAddsAll(front);
      assert InTurn(s)[..|s| - 1] == InTurn(front) && s == front + [s[|s| - 1]];
    }
    forall i | 0 <= i < |s|
      ensures NumCaches(InTurn(s)[..i]) > 0
    {
      SomeCache(InTurn(s)[..i]);
    }
  }

  lemma {:induction false} SomeCache<T>(ops: seq<Op<T>>)
    ensures NumCaches(ops) > 0
  {
    if ops != [] {
      SomeCache(ops[..|ops| - 1]);
    }
  }

  lemma RunExists(input: Input)
    requires SortedWork(input.work) && InBounds(input)
    ensures exists run: seq<State> :: Completes(input, run)
  {
    var run := SomeRunCompletes(input);
  }

  ghost function OneRun(input: Input): seq<State> {
    if SortedWork(input.work) && InBounds(input) then
      RunExists(input);
      var run: seq<State> :| Completes(input, run);
      run
    else []
  }

  lemma SomeThreadsWork() returns (t: Threads)
    ensures Work(t)
  {
    t := Threads(input => OneRun(input),
                 s => InTurn(s), s => InsertionSort(s, PosOf),
                 s => InTurn(s), s => InsertionSort(s, PointOf),
                 s => InTurn(s), s => InsertionSort(s, KeyOf));
    InTurnAdds(t.addEntries);
    InTurnAdds(t.addPoints);
    InTurnAdds(t.addKeys);
    InsertionIsSort(t.sortEntries, PosOf);
    InsertionIsSort(t.sortPoints, PointOf);
    InsertionIsSort(t.sortKeys, KeyOf);
    hide SortedWork, InBounds, Completes, Adds, Sorts;
  }

  lemma InTurnAdds<T(!new)>(add: seq<T> -> seq<Op<T>>)
    requires forall s :: add(s) == InTurn(s)
    ensures Adds(add)
  {
    forall s
      ensures AddsAll(s, add(s))
    {
      InTurnAddsAll(s);
    }
  }

  lemma InsertionIsSort<T(!new)>(sort: seq<T> -> seq<T>, key: T -> nat)
    requires forall s :: sort(s) == InsertionSort(s, key)
    ensures Sorts(sort, key)
  {
    forall s
      ensures IsSort(s, sort(s), key)
    {
      InsertionSorts(s, key);
    }
  }

  // ----- sorters

  lemma {:induction false} AddedIn<T(!new)>(ops: seq<Op<T>>, i: nat)
    requires i < |ops| && ops[i].AddTo?
    ensures ops[i].entry in AddedBy(ops)
  {
    if i < |ops| - 1 {
      AddedIn(ops[..|ops| - 1], i);
    }
  }

  /** What goes in comes out sorted. */
  method SortThrough<T(!new)>(s: seq<T>, add: seq<T> -> seq<Op<T>>, sort: seq<T> -> seq<T>, key: T -> nat,
                              keySize: nat, logNumBuckets: nat, capacity: nat)
    returns (r: Result<seq<Block<T>>>)
    requires keySize >= logNumBuckets && capacity >= 1 && Adds(add) && Sorts(sort, key)
    requires forall x :: x in s ==> key(x) < Pow2(keySize)
    ensures r.Err? <==> keySize < 2 * logNumBuckets
    ensures r.Ok? ==> IsSort(s, Flatten(Entries(r.value)), key) && OffsetsFrom(r.value, 0)
  {
    hide Pow2, AddedBy, Sorts, OffsetsFrom, SortedBy, NumCaches;
    var ops := add(s);
    assert AddsAll(s, ops);
    forall i | 0 <= i < |ops| && ops[i].AddTo?
      ensures key(ops[i].entry) < Pow2(keySize)
    {
      AddedIn(ops, i);
      assert ops[i].entry in multiset(s);
    }
    r := SortAll(ops, key, keySize, logNumBuckets, capacity, sort);
  }

  // ----- stage 1

  /** The merge workers, over chunks of L and R. */
  method MergeStage(t: Threads, chunks: seq<seq<nat>>, work: seq<seq<Entry>>) returns (merged: seq<seq<Merged>>)
    requires Merges(t.merge) && SortedWork(work) && InBounds(Input(chunks, work))
    ensures AllMerged(Flatten(chunks), Flatten(work), |Flatten(work)|, Flatten(merged))
  {
    hide SortedWork, InBounds, IsMerged, Next, Init, Finished;
    var input := Input(chunks, work);
    var run := t.merge(input);
    assert Completes(input, run);
    var last := Last(run);
    AllHandedOn(input, run, last);
    merged := seq(|work|, c requires 0 <= c < |work| => last.done[c]);
    ChunksMerged(Flatten(chunks), work, merged);
  }

  /** The add workers of stage 1. */
  method AddAllPoints(merged: seq<seq<Merged>>) returns (points: seq<LpEntry>)
    ensures points == WithPoints(Flatten(merged))
  {
    points := [];
    for c := 0 to |merged|
      invariant points == WithPoints(Flatten(merged[..c]))
    {
      FlattenNext(merged, c);
      var more := AddLinePoints(merged[c]);
      points := points + more;
    }
    assert merged[..|merged|] == merged;
  }

  // ----- stage 2

  /** The add workers of stage 2, on the sorted blocks of a table that does not overflow. */
  method AddAllPositions(blocks: seq<Block<LpEntry>>) returns (all: seq<NpEntry>)
    requires OffsetsFrom(blocks, 0) && |Flatten(Entries(blocks))| <= MAX_POSITION
    ensures all == Positions(Flatten(Entries(blocks)))
  {
    hide Pow2, Flatten;
    var outs: seq<seq<NpEntry>> := [];
    for b := 0 to |blocks|
      invariant |outs| == b
      invariant forall a :: 0 <= a < b ==> IsBlock(Entries(blocks)[a], |Flatten(Entries(blocks)[..a])|, outs[a])
    {
      var more := AddPositions(blocks[b].entries, blocks[b].offset);
      outs := outs + [more];
    }
    BlocksOfPositions(Entries(blocks), outs);
    all := Flatten(outs);
  }

  /** `get_new_pos` of the blocks that the next stage 1 reads. */
  method ReadPositions(blocks: seq<Block<NpEntry>>) returns (chunks: seq<seq<nat>>)
    ensures Flatten(chunks) == PosStream(Flatten(Entries(blocks)))
  {
    chunks := [];
    for b := 0 to |blocks|
      invariant Flatten(chunks) == PosStream(Flatten(Entries(blocks)[..b]))
    {
      FlattenNext(Entries(blocks), b);
      var chunk := PosStream(blocks[b].entries);
      FlattenAppend(chunks, chunk);
      chunks := chunks + [chunk];
    }
    assert Entries(blocks)[..|blocks|] == Entries(blocks);
  }

  // ----- both stages for one table

  /** What is left of a table: its line points in order, the records of its positions, and the chunks in
      which they reach the next table. */
  datatype Level = Level(points: seq<nat>, np: seq<NpEntry>, chunks: seq<seq<nat>>)

  predicate AllBelow(s: seq<nat>, bound: nat) {
    forall i :: 0 <= i < |s| ==> s[i] < bound
  }

  /** The limits that the sorters put on a table: k-bit keys, and k-bit values for the line points. */
  ghost predicate Limits(stream: seq<nat>, r: seq<Entry>, k: nat) {
    && AllBelow(stream, Pow2(k))
    && (forall i :: 0 <= i < |r| ==> r[i].key < Pow2(k) && r[i].pos + r[i].off < |stream|)
    && |r| <= MAX_POSITION
  }

  lemma PointsFit(stream: seq<nat>, r: seq<Entry>, merged: seq<Merged>, k: nat)
    requires Limits(stream, r, k) && 1 <= k <= 64 && AllMerged(stream, r, |r|, merged)
    ensures forall x :: x in WithPoints(merged) ==> PointOf(x) < Pow2(2 * k - 1) && x.key < Pow2(k)
  {
    hide Pow2, SquareToLinePoint;
    forall x | x in WithPoints(merged)
      ensures PointOf(x) < Pow2(2 * k - 1) && x.key < Pow2(k)
    {
      var i :| 0 <= i < |merged| && x == WithPoints(merged)[i];
      assert IsMerged(stream, r[i], merged[i]);
      var a, b := merged[i].pos0, merged[i].pos1;
      if a <= b {
        PairsFitKey(b, a, k);
        PointSymmetric(a, b);
      } else {
        PairsFitKey(a, b, k);
      }
    }
  }

  lemma PointSymmetric(x: nat, y: nat)
    ensures SquareToLinePoint(x, y) == SquareToLinePoint(y, x)
  {
  }

  lemma KeysFit(points: seq<LpEntry>, sorted: seq<LpEntry>, bound: nat)
    requires IsPermutation(points, sorted) && forall x :: x in points ==> x.key < bound
    ensures |sorted| == |points|
    ensures forall e :: e in Positions(sorted) ==> KeyOf(e) < bound
  {
    SameElements(points, sorted);
    forall e | e in Positions(sorted)
      ensures KeyOf(e) < bound
    {
      var i :| 0 <= i < |sorted| && e == Positions(sorted)[i];
      assert sorted[i] in sorted;
    }
  }

  /** compute_stage1 and compute_stage2 for one table, whose entries arrive in the order `read`. */
  method ComputeStages(t: Threads, chunks: seq<seq<nat>>, work: seq<seq<Entry>>, k: nat, logNumBuckets: nat,
                       capacity: nat, ghost r: seq<Entry>)
    returns (level: Result<Level>)
    requires Work(t) && 1 <= k <= 64 && k >= logNumBuckets && capacity >= 1
    requires SortedWork(work) && IsPermutation(r, Flatten(work)) && Limits(Flatten(chunks), Flatten(work), k)
    requires InBounds(Input(chunks, work))
    ensures level.Ok? <==> k >= 2 * logNumBuckets
    ensures level.Ok? ==> Stages(Flatten(chunks), r, level.value.points, level.value.np)
                          && Flatten(level.value.chunks) == PosStream(level.value.np)
  {
    hide Pow2, SortedWork, InBounds, AllMerged, SortedBy, Merges, Adds, Sorts, Flatten, Limits, OffsetsFrom;
    var merged := MergeStage(t, chunks, work);
    var points := AddAllPoints(merged);
    PointsFit(Flatten(chunks), Flatten(work), Flatten(merged), k);
    var sorted := SortThrough(points, t.addPoints, t.sortPoints, PointOf, 2 * k - 1, logNumBuckets, capacity);
    if sorted.Err? {
      return Err(sorted.error);
    }
    var final := Flatten(Entries(sorted.value));
    KeysFit(points, final, Pow2(k));
    FinalFits(Flatten(chunks), Flatten(work), Flatten(merged), k);
    var positions := AddAllPositions(sorted.value);
    var np := SortThrough(positions, t.addKeys, t.sortKeys, KeyOf, k, logNumBuckets, capacity);
    if np.Err? {
      return Err(np.error);
    }
    var next := ReadPositions(np.value);
    level := Ok(Level(Points(final), Flatten(Entries(np.value)), next));
    assert StagesVia(Flatten(chunks), r, Flatten(work), Flatten(merged), final, Points(final), Flatten(Entries(np.value)));
  }

  lemma FinalFits(stream: seq<nat>, r: seq<Entry>, merged: seq<Merged>, k: nat)
    requires Limits(stream, r, k) && AllMerged(stream, r, |r|, merged)
    ensures |merged| <= MAX_POSITION
  {
  }

  // ----- how R is read

  lemma FlattenIndex<T>(s: seq<seq<T>>, r: nat, k: nat) returns (i: nat)
    requires r < |s| && k < |s[r]|
    ensures i == |Flatten(s[..r])| + k < |Flatten(s)| && Flatten(s)[i] == s[r][k]
  {
    FlattenAt(s, r);
    i := |Flatten(s[..r])| + k;
    assert Flatten(s)[|Flatten(s[..r])|..|Flatten(s[..r])| + |s[r]|][k] == s[r][k];
  }

  lemma FlattenOrder<T>(s: seq<seq<T>>, r: nat, r': nat)
    requires r < r' <= |s|
    ensures |Flatten(s[..r])| + |s[r]| <= |Flatten(s[..r'])|
  {
    FlattenAt(s, r);
    FlattenPrefix(s[..r'], r + 1);
    assert s[..r'][..r + 1] == s[..r + 1];
  }

  /** Sorted blocks are what the merge workers ask of R. */
  lemma BlocksAreSortedWork(work: seq<seq<Entry>>)
    requires SortedBy(Flatten(work), PosOf)
    ensures SortedWork(work)
  {
    hide Flatten;
    forall r, k, r', k' | 0 <= r <= r' < |work| && 0 <= k < |work[r]| && 0 <= k' < |work[r']| && (r < r' || k <= k')
      ensures work[r][k].pos <= work[r'][k'].pos
    {
      var i := FlattenIndex(work, r, k);
      var j := FlattenIndex(work, r', k');
      if r < r' {
        FlattenOrder(work, r, r');
      }
      assert i == j || PosOf(Flatten(work)[i]) <= PosOf(Flatten(work)[j]);
    }
  }

  lemma WorkInBounds(chunks: seq<seq<nat>>, work: seq<seq<Entry>>)
    requires forall e :: e in Flatten(work) ==> e.pos + e.off < |Flatten(chunks)|
    ensures InBounds(Input(chunks, work))
  {
    forall c, k | 0 <= c < |work| && 0 <= k < |work[c]|
      ensures work[c][k].pos + work[c][k].off < |Flatten(chunks)|
    {
      var i := FlattenIndex(work, c, k);
      assert Flatten(work)[i] in Flatten(work);
    }
  }

  /** What the limits say about a table they also say about any permutation of it. */
  lemma LimitsOfPermutation(stream: seq<nat>, r: seq<Entry>, read: seq<Entry>, k: nat)
    requires IsPermutation(r, read) && Limits(stream, r, k)
    ensures Limits(stream, read, k) && forall e :: e in read ==> e.pos + e.off < |stream|
  {
    SameElements(r, read);
    hide Pow2;
    forall e | e in read
      ensures e.key < Pow2(k) && e.pos + e.off < |stream|
    {
      assert e in r;
    }
  }

  /** Tables 2 to 6 are read through a sorter, by position. */
  method ReadSorted(t: Threads, table: seq<Entry>, k: nat, logNumBuckets: nat, capacity: nat)
    returns (work: Result<seq<seq<Entry>>>)
    requires Work(t) && k >= logNumBuckets && capacity >= 1 && forall e :: e in table ==> e.pos < Pow2(k)
    ensures work.Ok? <==> k >= 2 * logNumBuckets
    ensures work.Ok? ==> IsPermutation(table, Flatten(work.value)) && SortedWork(work.value)
  {
    hide Pow2, Merges, Adds, Sorts, OffsetsFrom, SortedWork, Flatten;
    var blocks := SortThrough(table, t.addEntries, t.sortEntries, PosOf, k, logNumBuckets, capacity);
    if blocks.Err? {
      return Err(blocks.error);
    }
    BlocksAreSortedWork(Entries(blocks.value));
    work := Ok(Entries(blocks.value));
  }

  /** `DiskTable::read`: the table in blocks of the given size and a last one that may be shorter. */
  method ReadBlocks<T>(table: seq<T>, blockSize: nat) returns (blocks: seq<seq<T>>)
    requires blockSize >= 1
    ensures Flatten(blocks) == table
    ensures forall b :: 0 <= b < |blocks| ==> |Flatten(blocks[..b])| + |blocks[b]| <= |table|
  {
    hide Flatten;
    blocks := [];
    var offset := 0;
    FlattenNone<T>();
    while offset < |table|
      invariant offset <= |table| && Flatten(blocks) == table[..offset]
    {
      var end := if offset + blockSize <= |table| then offset + blockSize else |table|;
      assert table[..end] == table[..offset] + table[offset..end];
      FlattenAppend(blocks, table[offset..end]);
      blocks := blocks + [table[offset..end]];
      offset := end;
    }
    assert table[..offset] == table;
    forall b | 0 <= b < |blocks|
      ensures |Flatten(blocks[..b])| + |blocks[b]| <= |table|
    {
      FlattenAt(blocks, b);
    }
  }

  lemma FlattenNone<T>()
    ensures Flatten<T>([]) == []
  {
  }

  /** Table 1, block by block, without the entries that nobody uses. */
  method ReadTable1(xs: seq<nat>, used: BitField, blockSize: nat) returns (chunks: seq<seq<nat>>)
    requires used.Valid() && |xs| <= used.Size() && blockSize >= 1
    ensures Flatten(chunks) == Filter(xs, used.Bits())
  {
    hide Flatten, Filter, BitField.Bits, BitField.Valid, FieldBits;
    var blocks := ReadBlocks(xs, blockSize);
    chunks := [];
    var offset := 0;
    FilterNone(xs, used.Bits());
    FlattenNone<nat>();
    assert blocks[..0] == [];
    for b := 0 to |blocks|
      invariant offset == |Flatten(blocks[..b])| <= |xs|
      invariant Flatten(chunks) == Filter(xs[..offset], used.Bits())
    {
      FlattenAt(blocks, b);
      var chunk := FilterUsed(blocks[b], offset, used, xs);
      FlattenAppend(chunks, chunk);
      chunks := chunks + [chunk];
      offset := offset + |blocks[b]|;
    }
    assert blocks[..|blocks|] == blocks && xs[..|xs|] == xs;
  }

  lemma FilterNone(xs: seq<nat>, bits: seq<bool>)
    requires |xs| <= |bits|
    ensures Filter(xs[..0], bits) == []
  {
  }

  // ----- all tables

  /** The plot's parameter k holds its x values, its y values, and the entries that phase 2 keeps. */
  ghost predicate Fit(xs: seq<nat>, ys: seq<nat>, keeps: seq<seq<bool>>, out: seq<seq<Entry>>, k: nat)
    requires |keeps| > 0 && |xs| <= |keeps[0]|
  {
    && AllBelow(xs, Pow2(k)) && AllBelow(ys, Pow2(k))
    && |Filter(xs, keeps[0])| <= Pow2(k)
    && forall j :: 0 <= j < |out| ==> |out[j]| <= Pow2(k) && |out[j]| <= MAX_POSITION
  }

  /** A table whose references ascend, as the matching pass leaves them. */
  predicate PosAscending(table: seq<Ref>) {
    forall i, j :: 0 <= i < j < |table| ==> table[i].pos <= table[j].pos
  }

  /** The values handed up for the kept entries of one level. */
  ghost predicate HandedUp(keep: seq<bool>, size: nat, stream: seq<nat>, k: nat)
    requires size <= |keep|
  {
    |stream| == Rank(keep, size) <= Pow2(k) && AllBelow(stream, Pow2(k))
  }

  lemma RenumberedEnd(e: Ref, bits: seq<bool>, key: nat)
    requires e.pos + e.off < |bits|
    ensures var r := Renumbered(e, bits, key); r.key == key && r.pos + r.off == Rank(bits, e.pos + e.off)
  {
  }

  ghost predicate Inside(r: seq<Entry>, size: nat) {
    forall q :: 0 <= q < |r| ==> r[q].pos + r[q].off < size && r[q].key == q
  }

  /** Kept entries refer to kept entries, and their keys run. */
  lemma {:induction false} CompactedInside(table: seq<Ref>, used: seq<bool>, bits: seq<bool>, size: nat, n: nat)
    requires n <= |table| <= |used| && RefsBelow(table, size) && size <= |bits| && Marks(table, used, |table|, bits)
    ensures Inside(Compacted(table, used, bits, n), Rank(bits, size))
  {
    if n > 0 {
      CompactedInside(table, used, bits, size, n - 1);
      if used[n - 1] {
        var e := table[n - 1];
        assert Marked(table, used, |table|, e.pos + e.off);
        RankBelow(bits, e.pos + e.off, size);
        RenumberedEnd(e, bits, |Compacted(table, used, bits, n - 1)|);
      }
    }
  }

  /** One table of phase 2 is within the limits of its sorters. */
  lemma TableWithinLimits(table: seq<Ref>, used: seq<bool>, bits: seq<bool>, size: nat, stream: seq<nat>, r: seq<Entry>,
                          k: nat)
    requires |table| <= |used| && RefsBelow(table, size) && size <= |bits| && Marks(table, used, |table|, bits)
    requires r == Compacted(table, used, bits, |table|) && HandedUp(bits, size, stream, k)
    requires |r| <= Pow2(k) && |r| <= MAX_POSITION
    ensures Limits(stream, r, k)
    ensures (forall e :: e in r ==> e.pos < Pow2(k)) && forall i :: 0 <= i < |r| ==> r[i].key == i
  {
    CompactedInside(table, used, bits, size, |table|);
    hide Compacted, Rank, Pow2, Marks, RefsBelow;
  }

  /** The positions of one table are what it hands up. */
  lemma PositionsHandedUp(stream: seq<nat>, r: seq<Entry>, points: seq<nat>, np: seq<NpEntry>, keep: seq<bool>, size: nat,
                          k: nat)
    requires Stages(stream, r, points, np) && (forall i :: 0 <= i < |r| ==> r[i].key == i)
    requires size <= |keep| && |r| == Rank(keep, size) <= Pow2(k)
    ensures HandedUp(keep, size, PosStream(np), k)
  {
    NextStream(stream, r, points, np);
    hide Stages, Rank, Pow2;
    forall i | 0 <= i < |np|
      ensures PosStream(np)[i] < Pow2(k)
    {
      assert WentTo(stream, r[i], points, np[i].pos);
    }
  }

  function PointsOf(levels: seq<Level>): (p: seq<seq<nat>>)
    ensures |p| == |levels|
  {
    seq(|levels|, j requires 0 <= j < |levels| => levels[j].points)
  }

  function RecordsOf(levels: seq<Level>): (p: seq<seq<NpEntry>>)
    ensures |p| == |levels|
  {
    seq(|levels|, j requires 0 <= j < |levels| => levels[j].np)
  }

  /** The first tables have gone through both stages. */
  ghost predicate Built(bottom: seq<nat>, out: seq<seq<Entry>>, streams: seq<seq<nat>>, levels: seq<Level>) {
    && |levels| <= |out| && |streams| == |levels| + 1 && streams[0] == bottom
    && forall j :: 0 <= j < |levels| ==>
         Stages(streams[j], out[j], levels[j].points, levels[j].np) && streams[j + 1] == PosStream(levels[j].np)
  }

  lemma BuiltNext(bottom: seq<nat>, out: seq<seq<Entry>>, streams: seq<seq<nat>>, levels: seq<Level>, level: Level)
    requires Built(bottom, out, streams, levels) && |levels| < |out|
    requires Stages(streams[|levels|], out[|levels|], level.points, level.np)
    ensures Built(bottom, out, streams + [PosStream(level.np)], levels + [level])
  {
    hide Stages;
  }

  /** Table 7 in the order of its file. */
  lemma TopAscending(table: seq<Ref>, keep: seq<bool>, bits: seq<bool>, ys: seq<nat>)
    requires |table| <= |ys| && AllKept(keep, |table|) && RefsBelow(table, |bits|) && PosAscending(table)
    ensures |Compacted(table, keep, bits, |table|)| == |table|
    ensures SortedBy(Keyed(Compacted(table, keep, bits, |table|), ys), PosOf)
  {
    RankAll(keep, |table|, |table|);
    var c := Compacted(table, keep, bits, |table|);
    forall i, j | 0 <= i < j < |c|
      ensures c[i].pos <= c[j].pos
    {
      RankAll(keep, |table|, i);
      RankAll(keep, |table|, j);
      CompactedAt(table, keep, bits, |table|, i);
      CompactedAt(table, keep, bits, |table|, j);
      RankSplit(bits, table[i].pos, table[j].pos);
    }
  }

  lemma KeyedWithinLimits(stream: seq<nat>, r: seq<Entry>, ys: seq<nat>, k: nat)
    requires Limits(stream, r, k) && |r| <= |ys| && AllBelow(ys, Pow2(k))
    ensures Limits(stream, Keyed(r, ys), k)
  {
  }

  /** Both stages for one of the tables 2 to 6. */
  method ComputeTable(t: Threads, chunks: seq<seq<nat>>, table: seq<Entry>, k: nat, logNumBuckets: nat, capacity: nat)
    returns (level: Result<Level>)
    requires Work(t) && 1 <= k <= 64 && k >= logNumBuckets && capacity >= 1
    requires Limits(Flatten(chunks), table, k) && forall e :: e in table ==> e.pos < Pow2(k)
    ensures level.Ok? <==> k >= 2 * logNumBuckets
    ensures level.Ok? ==> Stages(Flatten(chunks), table, level.value.points, level.value.np)
                          && Flatten(level.value.chunks) == PosStream(level.value.np)
  {
    hide Pow2, Work, Limits, SortedWork, Flatten, Stages, InBounds;
    var work := ReadSorted(t, table, k, logNumBuckets, capacity);
    if work.Err? {
      return Err(work.error);
    }
    LimitsOfPermutation(Flatten(chunks), table, Flatten(work.value), k);
    WorkInBounds(chunks, work.value);
    level := ComputeStages(t, chunks, work.value, k, logNumBuckets, capacity, table);
  }

  /** Both stages for table 7, which comes from its file. */
  method ComputeTable7(t: Threads, chunks: seq<seq<nat>>, table: seq<Entry>, k: nat, logNumBuckets: nat, capacity: nat,
                       blockSize: nat)
    returns (level: Result<Level>)
    requires Work(t) && 1 <= k <= 64 && k >= logNumBuckets && capacity >= 1 && blockSize >= 1
    requires Limits(Flatten(chunks), table, k) && SortedBy(table, PosOf)
    ensures level.Ok? <==> k >= 2 * logNumBuckets
    ensures level.Ok? ==> Stages(Flatten(chunks), table, level.value.points, level.value.np)
  {
    hide Pow2, Work, Limits, SortedWork, Flatten, Stages, InBounds, SortedBy;
    var work := ReadBlocks(table, blockSize);
    BlocksAreSortedWork(work);
    LimitsOfPermutation(Flatten(chunks), table, table, k);
    WorkInBounds(chunks, work);
    level := ComputeStages(t, chunks, work, k, logNumBuckets, capacity, table);
  }

  // ----- the driver of phase 3

  /** Everything the driver starts from. */
  ghost predicate Ready(xs: seq<nat>, tables: seq<seq<Ref>>, ys: seq<nat>, keeps: seq<seq<bool>>, out: seq<seq<Entry>>,
                        k: nat)
  {
    && Phase2(xs, tables, keeps, out) && |tables| >= 1 && |ys| == |tables[|tables| - 1]|
    && |xs| <= |keeps[0]| && Fit(xs, ys, keeps, out, k) && PosAscending(tables[|tables| - 1])
  }

  /** Level j has been handed up. */
  ghost predicate AtLevel(xs: seq<nat>, tables: seq<seq<Ref>>, keeps: seq<seq<bool>>, k: nat, j: nat, stream: seq<nat>) {
    && j < |tables| && |keeps| == |tables| + 1 && Size(xs, tables, j) <= |keeps[j]|
    && HandedUp(keeps[j], Size(xs, tables, j), stream, k)
  }

  lemma AtBottom(xs: seq<nat>, tables: seq<seq<Ref>>, ys: seq<nat>, keeps: seq<seq<bool>>, out: seq<seq<Entry>>, k: nat)
    requires Ready(xs, tables, ys, keeps, out, k)
    ensures AtLevel(xs, tables, keeps, k, 0, Filter(xs, keeps[0]))
  {
    hide Ready, Pow2, Filter, Rank;
    BottomField(xs, tables, ys, keeps, out, k);
    FilterBelow(xs, keeps[0], Pow2(k));
  }

  lemma BottomField(xs: seq<nat>, tables: seq<seq<Ref>>, ys: seq<nat>, keeps: seq<seq<bool>>, out: seq<seq<Entry>>, k: nat)
    requires Ready(xs, tables, ys, keeps, out, k)
    ensures |keeps| == |tables| + 1 && |tables| >= 1 && |xs| <= |keeps[0]|
    ensures AllBelow(xs, Pow2(k)) && |Filter(xs, keeps[0])| <= Pow2(k)
  {
    hide Phase2, Pow2, Filter;
    assert |keeps| == |tables| + 1 by { KeepsCount(xs, tables, keeps, out); }
  }

  lemma KeepsCount(xs: seq<nat>, tables: seq<seq<Ref>>, keeps: seq<seq<bool>>, out: seq<seq<Entry>>)
    requires Phase2(xs, tables, keeps, out)
    ensures |keeps| == |tables| + 1
  {
  }

  lemma {:induction false} FilterBelow(xs: seq<nat>, bits: seq<bool>, bound: nat)
    requires |xs| <= |bits| && AllBelow(xs, bound)
    ensures |Filter(xs, bits)| == Rank(bits, |xs|)
    ensures AllBelow(Filter(xs, bits), bound)
  {
    if xs != [] {
      FilterBelow(xs[..|xs| - 1], bits, bound);
    }
  }

  lemma LevelLimits(xs: seq<nat>, tables: seq<seq<Ref>>, ys: seq<nat>, keeps: seq<seq<bool>>, out: seq<seq<Entry>>, k: nat,
                    j: nat, stream: seq<nat>)
    requires Ready(xs, tables, ys, keeps, out, k) && AtLevel(xs, tables, keeps, k, j, stream)
    ensures |out| == |tables| && |out[j]| <= Pow2(k)
    ensures Limits(stream, out[j], k)
    ensures (forall e :: e in out[j] ==> e.pos < Pow2(k)) && forall i :: 0 <= i < |out[j]| ==> out[j][i].key == i
  {
    Phase2At(xs, tables, keeps, out, j);
    TableRefs(xs, tables, keeps, out, j);
    TableWithinLimits(tables[j], keeps[j + 1], keeps[j], Size(xs, tables, j), stream, out[j], k);
    hide Limits, HandedUp, Phase2, Pow2;
  }

  lemma TableRefs(xs: seq<nat>, tables: seq<seq<Ref>>, keeps: seq<seq<bool>>, out: seq<seq<Entry>>, j: nat)
    requires Phase2(xs, tables, keeps, out) && j < |tables|
    ensures RefsBelow(tables[j], Size(xs, tables, j)) && |out| == |tables|
  {
  }

  lemma LevelUpTo(xs: seq<nat>, tables: seq<seq<Ref>>, ys: seq<nat>, keeps: seq<seq<bool>>, out: seq<seq<Entry>>, k: nat,
                  j: nat, stream: seq<nat>, level: Level)
    requires Ready(xs, tables, ys, keeps, out, k) && AtLevel(xs, tables, keeps, k, j, stream) && j + 1 < |tables|
    requires |out| == |tables| && Stages(stream, out[j], level.points, level.np)
    ensures AtLevel(xs, tables, keeps, k, j + 1, PosStream(level.np))
  {
    LevelLimits(xs, tables, ys, keeps, out, k, j, stream);
    Phase2At(xs, tables, keeps, out, j);
    hide Phase2, Stages, Limits, Pow2;
    PositionsHandedUp(stream, out[j], level.points, level.np, keeps[j + 1], |tables[j]|, k);
  }

  /** What is true of table 7 when its turn comes. */
  lemma TopReady(xs: seq<nat>, tables: seq<seq<Ref>>, ys: seq<nat>, keeps: seq<seq<bool>>, out: seq<seq<Entry>>, k: nat,
                 stream: seq<nat>)
    requires Ready(xs, tables, ys, keeps, out, k) && AtLevel(xs, tables, keeps, k, |tables| - 1, stream)
    ensures var n := |tables| - 1;
            && |out| == |tables| && |out[n]| == |ys| && Limits(stream, Keyed(out[n], ys), k)
            && SortedBy(Keyed(out[n], ys), PosOf)
  {
    var n := |tables| - 1;
    LevelLimits(xs, tables, ys, keeps, out, k, n, stream);
    Phase2At(xs, tables, keeps, out, n);
    TopAscending(tables[n], keeps[n + 1], keeps[n], ys);
    KeyedWithinLimits(stream, out[n], ys, k);
  }

  /** Putting the levels together. */
  lemma AllBuilt(xs: seq<nat>, tables: seq<seq<Ref>>, ys: seq<nat>, keeps: seq<seq<bool>>, out: seq<seq<Entry>>, k: nat,
                 streams: seq<seq<nat>>, levels: seq<Level>, top: Level)
    requires Ready(xs, tables, ys, keeps, out, k) && |levels| == |tables| - 1 && |out| == |tables|
    requires Built(Filter(xs, keeps[0]), out, streams, levels)
    requires |out[|levels|]| == |ys| && Stages(streams[|levels|], Keyed(out[|levels|], ys), top.points, top.np)
    ensures Phase3(xs, tables, ys, keeps, out, streams, PointsOf(levels + [top]), RecordsOf(levels + [top]))
  {
    hide Phase2, Stages, Fit, PosAscending;
    var all := levels + [top];
    forall j | 0 <= j < |levels|
      ensures PointsOf(all)[j] == levels[j].points && RecordsOf(all)[j] == levels[j].np
    {
    }
  }

  /** The final tables hold exactly the proof trees of phase 1: every table 7 entry has a record that leads to
      its tree, and every record leads to the tree of an entry. */
  ghost predicate TreesKept(xs: seq<nat>, tables: seq<seq<Ref>>, ys: seq<nat>, points: seq<seq<nat>>, top: seq<NpEntry>)
    requires WellFormed(xs, tables) && 1 <= |tables| == |points| && |ys| == |tables[|tables| - 1]|
  {
    && (forall p: nat :: p < |ys| ==> Survives(xs, tables, ys, points, top, p))
    && forall e :: e in top ==> exists p: nat :: p < |ys| && e.key == ys[p] && Leads(xs, tables, ys, points, top, p, e.pos)
  }

  ghost predicate Survives(xs: seq<nat>, tables: seq<seq<Ref>>, ys: seq<nat>, points: seq<seq<nat>>, top: seq<NpEntry>,
                           p: nat)
    requires WellFormed(xs, tables) && 1 <= |tables| == |points| && p < |ys| == |tables[|tables| - 1]|
  {
    exists i: nat :: Leads(xs, tables, ys, points, top, p, i)
  }

  /** Record i of table 7 is one for entry p. */
  ghost predicate Leads(xs: seq<nat>, tables: seq<seq<Ref>>, ys: seq<nat>, points: seq<seq<nat>>, top: seq<NpEntry>,
                        p: nat, i: nat)
    requires WellFormed(xs, tables) && 1 <= |tables| == |points| && p < |ys| == |tables[|tables| - 1]|
  {
    NpEntry(ys[p], i) in top && Same(FinalTree(points, |tables|, i), TreeAt(xs, tables, |tables|, p))
  }

  lemma Phase3KeepsTrees(xs: seq<nat>, tables: seq<seq<Ref>>, ys: seq<nat>, keeps: seq<seq<bool>>, out: seq<seq<Entry>>,
                         streams: seq<seq<nat>>, points: seq<seq<nat>>, nps: seq<seq<NpEntry>>)
    requires Phase2(xs, tables, keeps, out) && Phase3(xs, tables, ys, keeps, out, streams, points, nps)
    ensures TreesKept(xs, tables, ys, points, nps[|tables| - 1])
  {
    hide Same, FinalTree, TreeAt, Stages, Marks, Compacted, WellFormed;
    var top := nps[|tables| - 1];
    forall p: nat | p < |ys|
      ensures Survives(xs, tables, ys, points, top, p)
    {
      var i := TreesSurvive(xs, tables, ys, keeps, out, streams, points, nps, p);
      assert Leads(xs, tables, ys, points, top, p, i);
    }
    forall e | e in top
      ensures exists p: nat :: p < |ys| && e.key == ys[p] && Leads(xs, tables, ys, points, top, p, e.pos)
    {
      var p := NothingInvented(xs, tables, ys, keeps, out, streams, points, nps, e);
      assert Leads(xs, tables, ys, points, top, p, e.pos);
    }
  }

  /** compute of phase 3: from the tables of phase 2 to the final ones, which hold exactly the proof trees
      that phase 1 built. It fails exactly when k leaves a sorter no bits below two levels of buckets. */
  method ComputePhase3(t: Threads, xs: seq<nat>, bitfield1: BitField, out: seq<seq<Entry>>, ys: seq<nat>, k: nat,
                       logNumBuckets: nat, capacity: nat, blockSize: nat,
                       ghost tables: seq<seq<Ref>>, ghost keeps: seq<seq<bool>>)
    returns (levels: Result<seq<Level>>, ghost streams: seq<seq<nat>>)
    requires Ready(xs, tables, ys, keeps, out, k) && bitfield1.Valid() && bitfield1.Bits() == keeps[0]
    requires Work(t) && 1 <= k <= 64 && k >= logNumBuckets && capacity >= 1 && blockSize >= 1
    ensures levels.Ok? <==> k >= 2 * logNumBuckets
    ensures levels.Ok? ==> Phase3(xs, tables, ys, keeps, out, streams, PointsOf(levels.value), RecordsOf(levels.value))
    ensures levels.Ok? ==> |levels.value| == |tables|
                           && TreesKept(xs, tables, ys, PointsOf(levels.value), RecordsOf(levels.value)[|tables| - 1])
  {
    AtBottom(xs, tables, ys, keeps, out, k);
    BottomField(xs, tables, ys, keeps, out, k);
    ReadyFacts(xs, tables, ys, keeps, out, k);
    hide Ready, Phase2, Phase3, TreesKept, WellFormed, Pow2, Work, Limits, Flatten, Stages, AtLevel, Filter;
    hide SortedBy, Built, BitField.Valid, BitField.Bits;
    var chunks := ReadTable1(xs, bitfield1, blockSize);
    var done: seq<Level> := [];
    streams := [Flatten(chunks)];
    NothingBuilt(Flatten(chunks), out);
    while |done| < |out| - 1
      invariant |done| < |out| == |tables| && |streams| == |done| + 1
      invariant Built(Filter(xs, keeps[0]), out, streams, done) && Flatten(chunks) == streams[|done|]
      invariant AtLevel(xs, tables, keeps, k, |done|, streams[|done|])
      invariant |done| > 0 ==> k >= 2 * logNumBuckets
      decreases |out| - |done|
    {
      ghost var j := |done|;
      LevelLimits(xs, tables, ys, keeps, out, k, j, streams[j]);
      var level := ComputeTable(t, chunks, out[|done|], k, logNumBuckets, capacity);
      if level.Err? {
        return Err(level.error), streams;
      }
      LevelUpTo(xs, tables, ys, keeps, out, k, j, streams[j], level.value);
      BuiltNext(Filter(xs, keeps[0]), out, streams, done, level.value);
      streams := streams + [PosStream(level.value.np)];
      done := done + [level.value];
      chunks := level.value.chunks;
    }
    TopReady(xs, tables, ys, keeps, out, k, streams[|done|]);
    var top := ComputeTable7(t, chunks, Keyed(out[|done|], ys), k, logNumBuckets, capacity, blockSize);
    if top.Err? {
      return Err(top.error), streams;
    }
    AllBuilt(xs, tables, ys, keeps, out, k, streams, done, top.value);
    levels := Ok(done + [top.value]);
    Phase3KeepsTrees(xs, tables, ys, keeps, out, streams, PointsOf(levels.value), RecordsOf(levels.value));
  }

  lemma ReadyFacts(xs: seq<nat>, tables: seq<seq<Ref>>, ys: seq<nat>, keeps: seq<seq<bool>>, out: seq<seq<Entry>>, k: nat)
    requires Ready(xs, tables, ys, keeps, out, k)
    ensures Phase2(xs, tables, keeps, out) && WellFormed(xs, tables)
    ensures |out| == |tables| && |ys| == |tables[|tables| - 1]|
  {
  }

  lemma NothingBuilt(bottom: seq<nat>, out: seq<seq<Entry>>)
    ensures Built(bottom, out, [bottom], [])
  {
  }
}
