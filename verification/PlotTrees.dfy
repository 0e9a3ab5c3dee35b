/** Phases 2 and 3 together: marking, renumbering, sorting by line point and renumbering again leave
    every proof tree of table 7 as it was, up to the order of the two children of a node. */
module PlotTrees {
  import opened Powers
  import opened PositionWidth
  import opened Sequences
  import opened Sorting
  import opened Bitfield
  import opened LinePoints
  import opened MergeBuffer
  import opened Compaction

  datatype Tree = Leaf(x: nat) | Node(left: Tree, right: Tree)

  /** Equal up to swapping the two children of nodes. */
  predicate Same(t: Tree, u: Tree) {
    match (t, u)
    case (Leaf(x), Leaf(y)) => x == y
    case (Node(l, r), Node(l', r')) => (Same(l, l') && Same(r, r')) || (Same(l, r') && Same(r, l'))
    case _ => false
  }

  // ----- the tables of phase 1

  /** Table 1 holds x values; tables[j] refers to the table below it, table 1 for j = 0. */
  function Size(xs: seq<nat>, tables: seq<seq<Ref>>, level: nat): nat
    requires level <= |tables|
  {
    if level == 0 then |xs| else |tables[level - 1]|
  }

  ghost predicate WellFormed(xs: seq<nat>, tables: seq<seq<Ref>>) {
    && (forall j :: 0 <= j < |tables| ==> RefsBelow(tables[j], Size(xs, tables, j)))
    && (forall j, i :: 0 <= j < |tables| && 0 <= i < |tables[j]| ==> tables[j][i].off >= 1)
    && (forall i :: 0 <= i < |xs| ==> xs[i] < WORD)
    && (forall i, j :: 0 <= i < j < |xs| ==> xs[i] != xs[j])
    && (forall j :: 0 <= j < |tables| ==> |tables[j]| < WORD)
  }

  /** What following (pos, pos + off) through the phase 1 tables finds. */
  function TreeAt(xs: seq<nat>, tables: seq<seq<Ref>>, level: nat, p: nat): Tree
    requires WellFormed(xs, tables) && level <= |tables| && p < Size(xs, tables, level)
    decreases level
  {
    if level == 0 then Leaf(xs[p])
    else
      var e := tables[level - 1][p];
      Node(TreeAt(xs, tables, level - 1, e.pos), TreeAt(xs, tables, level - 1, e.pos + e.off))
  }

  // ----- phase 2

  predicate AllKept(keep: seq<bool>, n: nat) {
    n <= |keep| && forall p :: 0 <= p < n ==> keep[p]
  }

  /** keeps[j] are the bits of level j; the topmost level is kept whole. */
  ghost predicate Phase2(xs: seq<nat>, tables: seq<seq<Ref>>, keeps: seq<seq<bool>>, out: seq<seq<Entry>>) {
    && WellFormed(xs, tables) && |keeps| == |tables| + 1 && |out| == |tables|
    && (forall j :: 0 <= j <= |tables| ==> Size(xs, tables, j) <= |keeps[j]|)
    && AllKept(keeps[|tables|], Size(xs, tables, |tables|))
    && forall j :: 0 <= j < |tables| ==>
         && Marks(tables[j], keeps[j + 1], |tables[j]|, keeps[j])
         && out[j] == Compacted(tables[j], keeps[j + 1], keeps[j], |tables[j]|)
  }

  // ----- phase 3

  datatype LpEntry = LpEntry(point: nat, key: nat)
  datatype NpEntry = NpEntry(key: nat, pos: nat)

  /** `get_line_point` and `get_sort_key` */
  function PointOf(e: LpEntry): nat {
    e.point
  }

  function KeyOf(e: NpEntry): nat {
    e.key
  }

  function WithPoints(merged: seq<Merged>): (r: seq<LpEntry>)
    ensures |r| == |merged|
  {
    seq(|merged|, i requires 0 <= i < |merged| => LpEntry(SquareToLinePoint(merged[i].pos0, merged[i].pos1), merged[i].key))
  }

  function Positions(s: seq<LpEntry>): (r: seq<NpEntry>)
    ensures |r| == |s|
  {
    seq(|s|, i requires 0 <= i < |s| => NpEntry(s[i].key, i))
  }

  function PosStream(s: seq<NpEntry>): (r: seq<nat>)
    ensures |r| == |s|
  {
    seq(|s|, i requires 0 <= i < |s| => s[i].pos)
  }

  function Points(s: seq<LpEntry>): (r: seq<nat>)
    ensures |r| == |s|
  {
    seq(|s|, i requires 0 <= i < |s| => s[i].point)
  }

  /** Both stages for one table: its entries, in whatever order they are read, are merged with the
      stream of new positions below, sorted by line point, and numbered; the numbers are sorted by key. */
  ghost predicate Stages(stream: seq<nat>, r: seq<Entry>, points: seq<nat>, np: seq<NpEntry>) {
    exists read, merged, sorted :: StagesVia(stream, r, read, merged, sorted, points, np)
  }

  ghost predicate StagesVia(stream: seq<nat>, r: seq<Entry>, read: seq<Entry>, merged: seq<Merged>,
                      sorted: seq<LpEntry>,
                            points: seq<nat>, np: seq<NpEntry>) {
    && IsPermutation(r, read) && AllMerged(stream, read, |read|, merged)
    && IsSort(WithPoints(merged), sorted, PointOf)
    && points == Points(sorted)
    && IsSort(Positions(sorted), np, KeyOf)
  }

  /** The final table read back. */
  ghost function FinalTree(points: seq<seq<nat>>, level: nat, v: nat): Tree
    requires level <= |points|
    decreases level
  {
    if level == 0 then Leaf(v)
    else if v < |points[level - 1]| then
      var (x, y) := LinePointToSquare(points[level - 1][v]);
      Node(FinalTree(points, level - 1, x), FinalTree(points, level - 1, y))
    else Leaf(v)
  }

  // ----- one table

  /** Entry r went to position i of the final table. */
  ghost predicate WentTo(stream: seq<nat>, r: Entry, points: seq<nat>, i: nat) {
    && r.pos + r.off < |stream| && i < |points|
    && points[i] == SquareToLinePoint(stream[r.pos], stream[r.pos + r.off])
  }

  /** The record of where entry r went. */
  ghost predicate Recorded(stream: seq<nat>, r: Entry, points: seq<nat>, np: seq<NpEntry>, i: nat) {
    NpEntry(r.key, i) in np && WentTo(stream, r, points, i)
  }

  lemma Forwards(stream: seq<nat>, r: seq<Entry>, read: seq<Entry>, merged: seq<Merged>, sorted: seq<LpEntry>,
                 points: seq<nat>, np: seq<NpEntry>, k: nat) returns (i: nat)
    requires StagesVia(stream, r, read, merged, sorted, points, np) && k < |r|
    ensures Recorded(stream, r[k], points, np, i)
  {
    SameElements(r, read);
    SameElements(WithPoints(merged), sorted);
    SameElements(Positions(sorted), np);
    assert r[k] in r;
    hide IsSort, IsPermutation, StagesVia;
    var j :| 0 <= j < |read| && read[j] == r[k];
    assert IsMerged(stream, read[j], merged[j]);
    assert WithPoints(merged)[j] in WithPoints(merged);
    i :| 0 <= i < |sorted| && sorted[i] == WithPoints(merged)[j];
    assert Positions(sorted)[i] in np;
  }

  lemma Backwards(stream: seq<nat>, r: seq<Entry>, read: seq<Entry>, merged: seq<Merged>, sorted: seq<LpEntry>,
                  points: seq<nat>, np: seq<NpEntry>, e: NpEntry) returns (k: nat)
    requires StagesVia(stream, r, read, merged, sorted, points, np) && e in np
    ensures k < |r| && r[k].key == e.key && Recorded(stream, r[k], points, np, e.pos)
    ensures e.pos < |sorted| && sorted[e.pos].key == e.key
  {
    SameElements(r, read);
    SameElements(WithPoints(merged), sorted);
    SameElements(Positions(sorted), np);
    hide IsSort, IsPermutation, StagesVia;
    var i :| 0 <= i < |sorted| && Positions(sorted)[i] == e;
    assert sorted[i] in WithPoints(merged);
    var j :| 0 <= j < |merged| && WithPoints(merged)[j] == sorted[i];
    assert IsMerged(stream, read[j], merged[j]);
    assert read[j] in r;
    k :| 0 <= k < |r| && r[k] == read[j];
  }

  lemma StageSizes(stream: seq<nat>, r: seq<Entry>, read: seq<Entry>, merged: seq<Merged>, sorted: seq<LpEntry>,
                   points: seq<nat>, np: seq<NpEntry>)
    requires StagesVia(stream, r, read, merged, sorted, points, np)
    ensures |points| == |np| == |r| == |sorted|
  {
    SameElements(r, read);
    SameElements(WithPoints(merged), sorted);
    SameElements(Positions(sorted), np);
  }

  /** With the keys 0, 1, 2, ... the stream for the next table gives every entry its position, and no
      two entries the same one. */
  lemma NextStream(stream: seq<nat>, r: seq<Entry>, points: seq<nat>, np: seq<NpEntry>)
    requires Stages(stream, r, points, np)
    requires forall k :: 0 <= k < |r| ==> r[k].key == k
    ensures |np| == |r| == |points|
    ensures forall k :: 0 <= k < |r| ==> WentTo(stream, r[k], points, np[k].pos)
    ensures forall k, k' :: 0 <= k < k' < |r| ==> np[k].pos != np[k'].pos
  {
    var read: seq<Entry>, merged: seq<Merged>, sorted: seq<LpEntry> :| StagesVia(stream, r, read, merged, sorted, points, np);
    StageSizes(stream, r, read, merged, sorted, points, np);
    var key := KeyOf;
    forall k: nat | k < |r|
      ensures HasKey(np, key, k)
    {
      var i := Forwards(stream, r, read, merged, sorted, points, np, k);
      var j :| 0 <= j < |np| && np[j] == NpEntry(r[k].key, i);
      assert key(np[j]) == k;
    }
    forall k: nat | k < |r|
      ensures np[k].key == k && WentTo(stream, r[k], points, np[k].pos)
      ensures np[k].pos < |sorted| && sorted[np[k].pos].key == k
    {
      KeyIsPosition(np, key, k);
      var k' := Backwards(stream, r, read, merged, sorted, points, np, np[k]);
    }
  }

  // ----- all tables

  /** Table 7 has no sort key of its own; its entries are known by their y. */
  function Keyed(r: seq<Entry>, ys: seq<nat>): (k: seq<Entry>)
    requires |r| <= |ys|
    ensures |k| == |r|
  {
    seq(|r|, i requires 0 <= i < |r| => r[i].(key := ys[i]))
  }

  /** streams[j] are the new positions that level j hands up, the x values that are left for j = 0;
      points[j] is the final table of level j + 1. */
  ghost predicate Phase3(xs: seq<nat>, tables: seq<seq<Ref>>, ys: seq<nat>, keeps: seq<seq<bool>>, out: seq<seq<Entry>>,
                         streams: seq<seq<nat>>, points: seq<seq<nat>>, nps: seq<seq<NpEntry>>)
    requires Phase2(xs, tables, keeps, out)
  {
    var n := |tables|;
    && |streams| == |points| == |nps| == n >= 1 && |ys| == |tables[n - 1]| == |out[n - 1]|
    && streams[0] == Filter(xs, keeps[0])
    && (forall j :: 0 <= j < n - 1 ==> Stages(streams[j], out[j], points[j], nps[j]) && streams[j + 1] == PosStream(nps[j]))
    && Stages(streams[n - 1], Keyed(out[n - 1], ys), points[n - 1], nps[n - 1])
  }

  ghost predicate Different(s: seq<nat>) {
    forall i, j :: 0 <= i < j < |s| ==> s[i] != s[j]
  }

  /** The value handed up for the entry that used to be at p leads to its tree. */
  ghost predicate TreeKept(keep: seq<bool>, stream: seq<nat>, points: seq<seq<nat>>, j: nat, trees: seq<Tree>, p: nat)
    requires p < |trees| <= |keep| && j <= |points|
  {
    Rank(keep, p) < |stream| && Same(FinalTree(points, j, stream[Rank(keep, p)]), trees[p])
  }

  /** The values that level j hands up are different and lead to the trees of its kept entries. */
  ghost predicate LevelKept(keep: seq<bool>, stream: seq<nat>, points: seq<seq<nat>>, j: nat, trees: seq<Tree>)
    requires |trees| <= |keep| && j <= |points|
  {
    && |stream| == Rank(keep, |trees|)
    && Different(stream) && (forall i :: 0 <= i < |stream| ==> stream[i] < WORD)
    && forall p: nat :: p < |trees| && keep[p] ==> TreeKept(keep, stream, points, j, trees, p)
  }

  lemma {:induction false} FilterDifferent(xs: seq<nat>, bits: seq<bool>)
    requires |xs| <= |bits| && Different(xs)
    ensures Different(Filter(xs, bits))
    ensures forall x :: x in Filter(xs, bits) ==> x in xs
  {
    if xs != [] {
      var last := |xs| - 1;
      FilterDifferent(xs[..last], bits);
      assert xs[last] !in xs[..last];
    }
  }

  lemma BottomKept(xs: seq<nat>, keep: seq<bool>, points: seq<seq<nat>>, trees: seq<Tree>)
    requires |trees| == |xs| <= |keep| && Different(xs)
    requires forall p :: 0 <= p < |xs| ==> xs[p] < WORD && trees[p] == Leaf(xs[p])
    ensures LevelKept(keep, Filter(xs, keep), points, 0, trees)
  {
    var stream := Filter(xs, keep);
    FilterDifferent(xs, keep);
    forall i | 0 <= i < |stream|
      ensures stream[i] < WORD
    {
      assert stream[i] in xs;
    }
    forall p: nat | p < |xs| && keep[p]
      ensures TreeKept(keep, stream, points, 0, trees, p)
    {
      FilterAt(xs, keep, p);
    }
  }

  /** A line point of two different new positions leads to a node over the same two subtrees. */
  lemma NodeKept(points: seq<seq<nat>>, j: nat, i: nat, a: nat, b: nat, left: Tree, right: Tree)
    requires j < |points| && i < |points[j]| && points[j][i] == SquareToLinePoint(a, b)
    requires a < WORD && b < WORD && a != b
    requires Same(FinalTree(points, j, a), left) && Same(FinalTree(points, j, b), right)
    ensures Same(FinalTree(points, j + 1, i), Node(left, right))
  {
    hide SquareToLinePoint, LinePointToSquare;
    if a > b {
      PairRecovered(a, b);
    } else {
      PairRecovered(b, a);
    }
  }

  /** Where the entry that used to be at p now refers to. */
  lemma EntryRefers(table: seq<Ref>, used: seq<bool>, bits: seq<bool>, stream: seq<nat>, size: nat, p: nat)
    requires p < |table| <= |used| && used[p] && RefsBelow(table, size) && size <= |bits|
    requires Marks(table, used, |table|, bits) && |stream| == Rank(bits, size) && table[p].off >= 1
    ensures Rank(used, p) < |Compacted(table, used, bits, |table|)|
    ensures var e, e' := table[p], Compacted(table, used, bits, |table|)[Rank(used, p)];
            && e'.pos == Rank(bits, e.pos) && e'.pos + e'.off == Rank(bits, e.pos + e.off) < |stream|
            && e'.off > 0 && e.pos + e.off < size && bits[e.pos] && bits[e.pos + e.off]
  {
    ReferencesPreserved(table, used, bits, seq(size, _ => 0), p);
  }

  lemma DifferentAt(s: seq<nat>, i: nat, j: nat)
    requires Different(s) && i < j < |s|
    ensures s[i] != s[j]
  {
  }

  /** One level up, for an entry that went to position i. */
  lemma EntryKept(table: seq<Ref>, used: seq<bool>, bits: seq<bool>, stream: seq<nat>, points: seq<seq<nat>>, j: nat,
                  trees: seq<Tree>, p: nat, i: nat)
    requires j < |points| && p < |table| <= |used| && used[p] && table[p].off >= 1
    requires RefsBelow(table, |trees|) && |trees| <= |bits| && Marks(table, used, |table|, bits)
    requires LevelKept(bits, stream, points, j, trees)
    requires Rank(used, p) < |Compacted(table, used, bits, |table|)|
    requires WentTo(stream, Compacted(table, used, bits, |table|)[Rank(used, p)], points[j], i)
    ensures Same(FinalTree(points, j + 1, i), Node(trees[table[p].pos], trees[table[p].pos + table[p].off]))
  {
    EntryRefers(table, used, bits, stream, |trees|, p);
    var e, e' := table[p], Compacted(table, used, bits, |table|)[Rank(used, p)];
    hide *;
    SubtreesKept(bits, stream, points, j, trees, e, e');
    NodeAt(stream, e', points, j, i);
    NodeKept(points, j, i, stream[e'.pos], stream[e'.pos + e'.off], trees[e.pos], trees[e.pos + e.off]);
  }

  lemma NodeAt(stream: seq<nat>, e: Entry, points: seq<seq<nat>>, j: nat, i: nat)
    requires j < |points| && WentTo(stream, e, points[j], i)
    ensures e.pos + e.off < |stream| && i < |points[j]|
    ensures points[j][i] == SquareToLinePoint(stream[e.pos], stream[e.pos + e.off])
  {
  }

  lemma SubtreesKept(bits: seq<bool>, stream: seq<nat>, points: seq<seq<nat>>, j: nat, trees: seq<Tree>, e: Ref,
                     e': Entry)
    requires |trees| <= |bits| && j <= |points| && LevelKept(bits, stream, points, j, trees)
    requires e.pos + e.off < |trees| && bits[e.pos] && bits[e.pos + e.off] && e'.off > 0
    requires e'.pos == Rank(bits, e.pos) && e'.pos + e'.off == Rank(bits, e.pos + e.off) < |stream|
    ensures stream[e'.pos] != stream[e'.pos + e'.off]
    ensures stream[e'.pos] < WORD && stream[e'.pos + e'.off] < WORD
    ensures Same(FinalTree(points, j, stream[e'.pos]), trees[e.pos])
    ensures Same(FinalTree(points, j, stream[e'.pos + e'.off]), trees[e.pos + e.off])
  {
    hide Rank, FinalTree, Different, Same;
    assert TreeKept(bits, stream, points, j, trees, e.pos);
    assert TreeKept(bits, stream, points, j, trees, e.pos + e.off);
    DifferentAt(stream, e'.pos, e'.pos + e'.off);
  }

  lemma {:induction false} KeysRunning(table: seq<Ref>, used: seq<bool>, bits: seq<bool>, n: nat)
    requires n <= |table| <= |used| && RefsBelow(table, |bits|)
    ensures forall k :: 0 <= k < |Compacted(table, used, bits, n)| ==> Compacted(table, used, bits, n)[k].key == k
  {
    if n > 0 {
      KeysRunning(table, used, bits, n - 1);
    }
  }

  /** trees holds, for every entry, the node over its two trees below. */
  ghost predicate Above(table: seq<Ref>, below: seq<Tree>, trees: seq<Tree>)
    requires RefsBelow(table, |below|)
  {
    && |trees| == |table|
    && forall p :: 0 <= p < |table| ==> trees[p] == Node(below[table[p].pos], below[table[p].pos + table[p].off])
  }

  lemma LevelUp(table: seq<Ref>, used: seq<bool>, bits: seq<bool>, stream: seq<nat>, points: seq<seq<nat>>,
                np: seq<NpEntry>, j: nat, below: seq<Tree>, trees: seq<Tree>)
    requires j < |points| && |table| <= |used| && |table| < WORD
    requires forall p :: 0 <= p < |table| ==> table[p].off >= 1
    requires RefsBelow(table, |below|) && |below| <= |bits| && Marks(table, used, |table|, bits)
    requires LevelKept(bits, stream, points, j, below) && Above(table, below, trees)
    requires Stages(stream, Compacted(table, used, bits, |table|), points[j], np)
    ensures LevelKept(used, PosStream(np), points, j + 1, trees)
  {
    var r, next := Compacted(table, used, bits, |table|), PosStream(np);
    KeysRunning(table, used, bits, |table|);
    NextStream(stream, r, points[j], np);
    hide Stages, LevelKept, FinalTree, Rank, Compacted, Marks, Same;
    forall p: nat | p < |table| && used[p]
      ensures TreeKept(used, next, points, j + 1, trees, p)
    {
      RankBelow(used, p, |table|);
      EntryKept(table, used, bits, stream, points, j, below, p, np[Rank(used, p)].pos);
    }
    CountFits(used, |table|);
    LevelFacts(used, next, points, j + 1, trees);
  }

  lemma CountFits(bits: seq<bool>, n: nat)
    requires n <= |bits|
    ensures Rank(bits, n) <= n
  {
  }

  lemma LevelFacts(keep: seq<bool>, stream: seq<nat>, points: seq<seq<nat>>, j: nat, trees: seq<Tree>)
    requires |trees| <= |keep| && j <= |points|
    requires |stream| == Rank(keep, |trees|) && Different(stream)
    requires forall i :: 0 <= i < |stream| ==> stream[i] < WORD
    requires forall p: nat :: p < |trees| && keep[p] ==> TreeKept(keep, stream, points, j, trees, p)
    ensures LevelKept(keep, stream, points, j, trees)
  {
  }

  // ----- the whole plot

  /** The phase 1 trees of one level. */
  function TreesOf(xs: seq<nat>, tables: seq<seq<Ref>>, level: nat): (t: seq<Tree>)
    requires WellFormed(xs, tables) && level <= |tables|
    ensures |t| == Size(xs, tables, level)
  {
    seq(Size(xs, tables, level), p requires 0 <= p < Size(xs, tables, level) => TreeAt(xs, tables, level, p))
  }

  lemma TreesAbove(xs: seq<nat>, tables: seq<seq<Ref>>, j: nat)
    requires WellFormed(xs, tables) && j < |tables|
    ensures RefsBelow(tables[j], |TreesOf(xs, tables, j)|)
    ensures Above(tables[j], TreesOf(xs, tables, j), TreesOf(xs, tables, j + 1))
    ensures |tables[j]| < WORD && forall p :: 0 <= p < |tables[j]| ==> tables[j][p].off >= 1
  {
  }

  lemma Phase2At(xs: seq<nat>, tables: seq<seq<Ref>>, keeps: seq<seq<bool>>, out: seq<seq<Entry>>, j: nat)
    requires Phase2(xs, tables, keeps, out) && j < |tables|
    ensures Size(xs, tables, j) <= |keeps[j]| && |tables[j]| <= |keeps[j + 1]|
    ensures Marks(tables[j], keeps[j + 1], |tables[j]|, keeps[j])
    ensures RefsBelow(tables[j], |keeps[j]|) && out[j] == Compacted(tables[j], keeps[j + 1], keeps[j], |tables[j]|)
  {
  }

  lemma {:induction false} LevelsKept(xs: seq<nat>, tables: seq<seq<Ref>>, ys: seq<nat>, keeps: seq<seq<bool>>,
                      out: seq<seq<Entry>>,
                                     streams: seq<seq<nat>>, points: seq<seq<nat>>, nps: seq<seq<NpEntry>>, j: nat)
    requires Phase2(xs, tables, keeps, out) && Phase3(xs, tables, ys, keeps, out, streams, points, nps) && j < |tables|
    ensures Size(xs, tables, j) <= |keeps[j]|
    ensures LevelKept(keeps[j], streams[j], points, j, TreesOf(xs, tables, j))
  {
    Phase2At(xs, tables, keeps, out, j);
    hide LevelKept, Marks, Compacted, Stages;
    if j == 0 {
      BottomKept(xs, keeps[0], points, TreesOf(xs, tables, 0));
    } else {
      var i := j - 1;
      LevelsKept(xs, tables, ys, keeps, out, streams, points, nps, i);
      Phase2At(xs, tables, keeps, out, i);
      TreesAbove(xs, tables, i);
      assert Stages(streams[i], out[i], points[i], nps[i]);
      LevelUp(tables[i], keeps[i + 1], keeps[i], streams[i], points, nps[i], i,
              TreesOf(xs, tables, i), TreesOf(xs, tables, j));
    }
  }

  lemma {:induction false} RankAll(bits: seq<bool>, n: nat, p: nat)
    requires p <= n && AllKept(bits, n)
    ensures Rank(bits, p) == p
  {
    if p > 0 {
      RankAll(bits, n, p - 1);
      RankNext(bits, p - 1);
    }
  }

  /** An entry of table 7, wherever it went, still has its tree. */
  lemma TopKept(xs: seq<nat>, tables: seq<seq<Ref>>, ys: seq<nat>, keeps: seq<seq<bool>>, out: seq<seq<Entry>>,
                streams: seq<seq<nat>>, points: seq<seq<nat>>, nps: seq<seq<NpEntry>>, p: nat, i: nat)
    requires Phase2(xs, tables, keeps, out) && Phase3(xs, tables, ys, keeps, out, streams, points, nps)
    requires var n := |tables|;
             p < |tables[n - 1]| && WentTo(streams[n - 1], Keyed(out[n - 1], ys)[p], points[n - 1], i)
    ensures Same(FinalTree(points, |tables|, i), TreeAt(xs, tables, |tables|, p))
  {
    hide LevelKept, Marks, Compacted, Stages, Rank, FinalTree, TreeAt, Same, WellFormed, Keyed;
    var j := |tables| - 1;
    LevelsKept(xs, tables, ys, keeps, out, streams, points, nps, j);
    Phase2At(xs, tables, keeps, out, j);
    TreesAbove(xs, tables, j);
    TopEntry(tables[j], keeps[j + 1], keeps[j], ys, p);
    EntryKept(tables[j], keeps[j + 1], keeps[j], streams[j], points, j, TreesOf(xs, tables, j), p, i);
    assert TreesOf(xs, tables, j + 1)[p] == TreeAt(xs, tables, j + 1, p);
  }

  /** Nothing of table 7 moves in phase 2. */
  lemma TopEntry(table: seq<Ref>, keep: seq<bool>, bits: seq<bool>, ys: seq<nat>, p: nat)
    requires p < |table| <= |ys| && AllKept(keep, |table|) && RefsBelow(table, |bits|)
    ensures Rank(keep, p) == p < |Compacted(table, keep, bits, |table|)| == |table|
    ensures Keyed(Compacted(table, keep, bits, |table|), ys)[p] == Compacted(table, keep, bits, |table|)[p].(key := ys[p])
  {
    RankAll(keep, |table|, p);
    RankAll(keep, |table|, |table|);
  }

  /** Every proof tree of table 7 survives: some record of its y in the final table leads, through line
      points taken apart one after the other, to the tree that phase 1 built, up to swapping the two
      children of nodes. */
  lemma TreesSurvive(xs: seq<nat>, tables: seq<seq<Ref>>, ys: seq<nat>, keeps: seq<seq<bool>>, out: seq<seq<Entry>>,
                     streams: seq<seq<nat>>, points: seq<seq<nat>>, nps: seq<seq<NpEntry>>, p: nat) returns (i: nat)
    requires Phase2(xs, tables, keeps, out) && Phase3(xs, tables, ys, keeps, out, streams, points, nps)
    requires p < |tables[|tables| - 1]|
    ensures NpEntry(ys[p], i) in nps[|tables| - 1]
    ensures Same(FinalTree(points, |tables|, i), TreeAt(xs, tables, |tables|, p))
  {
    var j := |tables| - 1;
    var r := Keyed(out[j], ys);
    var read, merged, sorted :| StagesVia(streams[j], r, read, merged, sorted, points[j], nps[j]);
    i := Forwards(streams[j], r, read, merged, sorted, points[j], nps[j], p);
    TopKept(xs, tables, ys, keeps, out, streams, points, nps, p, i);
  }

  /** And nothing is invented: every record of the final table leads to the tree of a table 7 entry
      with that y. */
  lemma NothingInvented(xs: seq<nat>, tables: seq<seq<Ref>>, ys: seq<nat>, keeps: seq<seq<bool>>, out: seq<seq<Entry>>,
                        streams: seq<seq<nat>>, points: seq<seq<nat>>, nps: seq<seq<NpEntry>>, e: NpEntry) returns (p: nat)
    requires Phase2(xs, tables, keeps, out) && Phase3(xs, tables, ys, keeps, out, streams, points, nps)
    requires e in nps[|tables| - 1]
    ensures p < |tables[|tables| - 1]| && ys[p] == e.key
    ensures Same(FinalTree(points, |tables|, e.pos), TreeAt(xs, tables, |tables|, p))
  {
    var j := |tables| - 1;
    var r := Keyed(out[j], ys);
    var read, merged, sorted :| StagesVia(streams[j], r, read, merged, sorted, points[j], nps[j]);
    p := Backwards(streams[j], r, read, merged, sorted, points[j], nps[j], e);
    TopKept(xs, tables, ys, keeps, out, streams, points, nps, p, e.pos);
  }

  // ----- what is kept

  /** p is reached from the top by following one of the two references of an entry, level by level. */
  ghost predicate Reached(xs: seq<nat>, tables: seq<seq<Ref>>, level: nat, p: nat)
    requires level <= |tables|
    decreases |tables| - level
  {
    if level == |tables| then p < Size(xs, tables, level)
    else exists i :: 0 <= i < |tables[level]| && Reached(xs, tables, level + 1, i)
                     && (p == tables[level][i].pos || p == tables[level][i].pos + tables[level][i].off)
  }

  /** The entries kept are exactly those reachable from table 7. */
  lemma {:induction false} KeptIsReached(xs: seq<nat>, tables: seq<seq<Ref>>, keeps: seq<seq<bool>>,
                      out: seq<seq<Entry>>,
                                        level: nat, p: nat)
    requires Phase2(xs, tables, keeps, out) && level <= |tables| && p < Size(xs, tables, level)
    ensures p < |keeps[level]| && (keeps[level][p] <==> Reached(xs, tables, level, p))
    decreases |tables| - level
  {
    if level < |tables| {
      Phase2At(xs, tables, keeps, out, level);
      var table, used := tables[level], keeps[level + 1];
      forall i: nat | i < |table|
        ensures used[i] <==> Reached(xs, tables, level + 1, i)
      {
        KeptIsReached(xs, tables, keeps, out, level + 1, i);
      }
      assert keeps[level][p] <==> Marked(table, used, |table|, p);
    }
  }

  // ----- the driver of phase 2

  /** One table's share of the chain. */
  ghost predicate Link(table: seq<Ref>, used: seq<bool>, bits: seq<bool>, out: seq<Entry>) {
    && |table| <= |used| && RefsBelow(table, |bits|)
    && Marks(table, used, |table|, bits) && out == Compacted(table, used, bits, |table|)
  }

  /** The part of the chain from table i up. */
  ghost predicate Chain(xs: seq<nat>, tables: seq<seq<Ref>>, i: nat, keeps: seq<seq<bool>>, out: seq<seq<Entry>>)
    requires i < |tables|
  {
    var n := |tables|;
    && |keeps| == n - i + 1 && |out| == n - i
    && AllKept(keeps[n - i], |tables[n - 1]|)
    && Size(xs, tables, i) <= |keeps[0]|
    && forall j :: 0 <= j < n - i ==> Link(tables[i + j], keeps[j + 1], keeps[j], out[j])
  }

  lemma ChainGrows(xs: seq<nat>, tables: seq<seq<Ref>>, i: nat, keeps: seq<seq<bool>>, out: seq<seq<Entry>>,
                   bits: seq<bool>, kept: seq<Entry>)
    requires 0 < i < |tables| && Chain(xs, tables, i, keeps, out)
    requires Size(xs, tables, i - 1) <= |bits| && Link(tables[i - 1], keeps[0], bits, kept)
    ensures Chain(xs, tables, i - 1, [bits] + keeps, [kept] + out)
  {
    var keeps', out' := [bits] + keeps, [kept] + out;
    forall j | 0 <= j < |tables| - (i - 1)
      ensures Link(tables[i - 1 + j], keeps'[j + 1], keeps'[j], out'[j])
    {
      if j > 0 {
        assert Link(tables[i + (j - 1)], keeps[j], keeps[j - 1], out[j - 1]);
      }
    }
  }

  lemma WholeChain(xs: seq<nat>, tables: seq<seq<Ref>>, keeps: seq<seq<bool>>, out: seq<seq<Entry>>)
    requires WellFormed(xs, tables) && |tables| >= 1 && Chain(xs, tables, 0, keeps, out)
    ensures Phase2(xs, tables, keeps, out)
  {
    hide WellFormed, Marks, Compacted;
    forall j | 0 <= j < |tables|
      ensures Size(xs, tables, j) <= |keeps[j]| && RefsBelow(tables[j], |keeps[j]|)
      ensures |tables[j]| <= |keeps[j + 1]| && Marks(tables[j], keeps[j + 1], |tables[j]|, keeps[j])
      ensures out[j] == Compacted(tables[j], keeps[j + 1], keeps[j], |tables[j]|)
    {
      assert Link(tables[0 + j], keeps[j + 1], keeps[j], out[j]);
      if j > 0 {
        assert Link(tables[0 + (j - 1)], keeps[j], keeps[j - 1], out[j - 1]);
      }
    }
    var n := |tables|;
    assert Link(tables[0 + (n - 1)], keeps[n], keeps[n - 1], out[n - 1]);
  }

  /** Every table fits the bit fields, and its references those of the table below. */
  lemma FieldsFit(xs: seq<nat>, tables: seq<seq<Ref>>, size: nat, j: nat)
    requires WellFormed(xs, tables) && j < |tables|
    requires |xs| <= size && forall j :: 0 <= j < |tables| ==> |tables[j]| <= size
    ensures RefsBelow(tables[j], size) && |tables[j]| <= size && Size(xs, tables, j) <= size
  {
    assert RefsBelow(tables[j], Size(xs, tables, j));
  }

  method MaxTableSize(xs: seq<nat>, tables: seq<seq<Ref>>) returns (size: nat)
    ensures |xs| <= size && forall j :: 0 <= j < |tables| ==> |tables[j]| <= size
  {
    size := |xs|;
    for i := 0 to |tables|
      invariant |xs| <= size && forall j :: 0 <= j < i ==> |tables[j]| <= size
    {
      if size < |tables[i]| {
        size := |tables[i]|;
      }
    }
  }

  /** The chain from table 7 down to table 2, with two bit fields swapped from table to table. */
  method ComputePhase2(xs: seq<nat>, tables: seq<seq<Ref>>)
    returns (out: seq<seq<Entry>>, bitfield1: BitField, ghost keeps: seq<seq<bool>>)
    requires WellFormed(xs, tables) && |tables| >= 1
    ensures Phase2(xs, tables, keeps, out)
    ensures bitfield1.Bits() == keeps[0]
  {
    hide WellFormed, Marks, Compacted, Chain, Phase2;
    var maxTableSize := MaxTableSize(xs, tables);
    var i := |tables| - 1;
    var curr := new BitField(maxTableSize);
    var next := new BitField(maxTableSize);
    FieldsFit(xs, tables, maxTableSize, i);
    var top := ComputeTable(next, tables[i], null);
    out := [top];
    keeps := [next.Bits(), UsedBits(null, |tables[i]|)];
    assert Link(tables[i], keeps[1], keeps[0], top);
    TopChain(xs, tables, keeps, out);
    while i > 0
      invariant 0 <= i < |tables|
      invariant fresh(curr) && fresh(next) && fresh(curr.words) && fresh(next.words) && curr.words != next.words
      invariant curr.Size() >= maxTableSize && next.Size() >= maxTableSize
      invariant Chain(xs, tables, i, keeps, out) && |keeps| > 0 && keeps[0] == next.Bits()
    {
      curr, next := next, curr;
      FieldsFit(xs, tables, maxTableSize, i - 1);
      var kept := ComputeTable(next, tables[i - 1], curr);
      assert Link(tables[i - 1], keeps[0], next.Bits(), kept);
      ChainGrows(xs, tables, i, keeps, out, next.Bits(), kept);
      out := [kept] + out;
      keeps := [next.Bits()] + keeps;
      i := i - 1;
    }
    WholeChain(xs, tables, keeps, out);
    bitfield1 := next;
  }

  lemma TopChain(xs: seq<nat>, tables: seq<seq<Ref>>, keeps: seq<seq<bool>>, out: seq<seq<Entry>>)
    requires |tables| >= 1 && |keeps| == 2 && |out| == 1
    requires var n := |tables|;
             && keeps[1] == UsedBits(null, |tables[n - 1]|)
             && Size(xs, tables, n - 1) <= |keeps[0]| && Link(tables[n - 1], keeps[1], keeps[0], out[0])
    ensures Chain(xs, tables, |tables| - 1, keeps, out)
  {
  }

  // ----- the loops of phase 3

  /** The filter on one block of table 1: the x values of the entries that are still used, in order. */
  method FilterUsed(input: seq<nat>, begin: nat, used: BitField, ghost xs: seq<nat>) returns (out: seq<nat>)
    requires used.Valid() && |xs| <= used.Size()
    requires begin + |input| <= |xs| && xs[begin..begin + |input|] == input
    ensures Filter(xs[..begin + |input|], used.Bits()) == Filter(xs[..begin], used.Bits()) + out
  {
    hide Filter, Rank, FieldBits, BitField.Get;
    out := [];
    var p := begin;
    while p < begin + |input|
      invariant begin <= p <= begin + |input|
      invariant Filter(xs[..p], used.Bits()) == Filter(xs[..begin], used.Bits()) + out
    {
      assert input[p - begin] == xs[p];
      FilterNext(xs, used.Bits(), p);
      if used.Get(p) {
        out := out + [input[p - begin]];
      }
      p := p + 1;
    }
  }

  lemma FilterNext(xs: seq<nat>, bits: seq<bool>, i: nat)
    requires i < |xs| <= |bits|
    ensures Filter(xs[..i + 1], bits) == Filter(xs[..i], bits) + if bits[i] then [xs[i]] else []
  {
    hide Rank;
    var s := xs[..i + 1];
    assert s[..|s| - 1] == xs[..i];
  }

  /** The stage 1 workers that turn merged entries into line points. */
  method AddLinePoints(input: seq<Merged>) returns (out: seq<LpEntry>)
    ensures out == WithPoints(input)
  {
    out := [];
    for i := 0 to |input|
      invariant out == WithPoints(input)[..i]
    {
      out := out + [LpEntry(SquareToLinePoint(input[i].pos0, input[i].pos1), input[i].key)];
    }
  }

  /** The stage 2 workers that hand on the new positions of one block, dropping those that overflow. */
  method AddPositions(input: seq<LpEntry>, begin: nat) returns (out: seq<NpEntry>)
    ensures |out| == if begin + |input| <= MAX_POSITION then |input| else if begin <= MAX_POSITION then MAX_POSITION - begin else 0
    ensures forall i :: 0 <= i < |out| ==> out[i] == NpEntry(input[i].key, begin + i)
  {
    hide Pow2;
    out := [];
    var index := begin;
    for i := 0 to |input|
      invariant |out| == i && index == begin + i && (i > 0 ==> begin + i <= MAX_POSITION)
      invariant forall j :: 0 <= j < i ==> out[j] == NpEntry(input[j].key, begin + j)
    {
      if index >= MAX_POSITION {
        break;
      }
      out := out + [NpEntry(input[i].key, index)];
      index := index + 1;
    }
  }

  /** Blocks of a table that does not overflow add up to the positions of the whole. */
  lemma {:induction false} BlocksOfPositions(blocks: seq<seq<LpEntry>>, outs: seq<seq<NpEntry>>)
    requires |outs| == |blocks| && |Flatten(blocks)| <= MAX_POSITION
    requires forall b :: 0 <= b < |blocks| ==> IsBlock(blocks[b], |Flatten(blocks[..b])|, outs[b])
    ensures Flatten(outs) == Positions(Flatten(blocks))
  {
    if blocks != [] {
      var last := |blocks| - 1;
      forall b | 0 <= b < last
        ensures IsBlock(blocks[..last][b], |Flatten(blocks[..last][..b])|, outs[..last][b])
      {
        assert blocks[..last][..b] == blocks[..b];
        assert IsBlock(blocks[b], |Flatten(blocks[..b])|, outs[b]);
      }
      BlocksOfPositions(blocks[..last], outs[..last]);
      assert IsBlock(blocks[last], |Flatten(blocks[..last])|, outs[last]);
    }
  }

  /** What AddPositions makes of a block that starts at `begin`. */
  ghost predicate IsBlock(input: seq<LpEntry>, begin: nat, out: seq<NpEntry>) {
    begin + |input| <= MAX_POSITION ==>
      |out| == |input| && forall i :: 0 <= i < |out| ==> out[i] == NpEntry(input[i].key, begin + i)
  }

  /** The chunks that the merge workers finish make up the merged table. */
  lemma {:induction false} ChunksMerged(stream: seq<nat>, work: seq<seq<Entry>>, outs: seq<seq<Merged>>)
    requires |outs| == |work| && forall c :: 0 <= c < |work| ==> AllMerged(stream, work[c], |work[c]|, outs[c])
    ensures AllMerged(stream, Flatten(work), |Flatten(work)|, Flatten(outs))
  {
    if work != [] {
      var last := |work| - 1;
      ChunksMerged(stream, work[..last], outs[..last]);
    }
  }
}
