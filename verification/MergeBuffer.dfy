/** The merge stage of phase 3: one producer hands out the L stream in chunks, and every merge worker
    keeps a sliding window of it, copied from the shared list, to look up the positions of the R
    entries it is given. A step is what an actor does in one stretch of holding the mutex, or on
    data of its own; the reads of `L_is_end` after the mutex has been released are steps of their own. */
module MergeBuffer {
  import opened Sequences
  import opened Wrappers

  /** An R entry, and the `entry_kpp` made of it. */
  datatype Entry = Entry(key: nat, pos: nat, off: nat)
  datatype Merged = Merged(key: nat, pos0: nat, pos1: nat)

  /** `merge_buffer_t` in the shared list */
  datatype Buffer = Buffer(offset: nat, newPos: seq<nat>, copySync: nat)

  /** Where a worker is: between chunks of R, about to fetch its next entry, in the loop that extends
      the window, past its scan of the list (`sawEnd` is what `L_is_end` was during the scan), or
      in one of the two exceptions. */
  datatype Pc = Outside | Fetch | Extend | Check(sawEnd: bool) | NotSorted | OutOfBounds(sawEnd: bool)

  /** A merge worker: its window, the chunk it works on and how far it has got; `from` is the first
      chunk it has not finished. */
  datatype Worker = Worker(offset: nat, newPos: seq<nat>, pc: Pc, chunk: nat, next: nat, last: nat,
                           out: seq<Merged>, from: nat)

  /** `popped` is how much of L has left the list, `pushed` how much has entered it; `done` are the chunks of
      R that have been handed on, which the thread pool does in their order. */
  datatype State = State(
    nextChunk: nat, numRead: nat, tmp: Option<Buffer>, list: seq<Buffer>, lEnd: bool, rEnd: bool,
    workers: seq<Worker>, nextWork: nat, popped: nat, pushed: nat, done: map<nat, seq<Merged>>)

  /** `chunks` is how the L stream arrives and `work` how the R stream does. */
  datatype Input = Input(chunks: seq<seq<nat>>, work: seq<seq<Entry>>)

  function Stream(input: Input): seq<nat> {
    Flatten(input.chunks)
  }

  function End(w: Worker): nat {
    w.offset + |w.newPos|
  }

  // ----- the producer

  /** Builds the next chunk outside the mutex. */
  function Build(input: Input, s: State): State
    requires s.nextChunk < |input.chunks|
  {
    var chunk := input.chunks[s.nextChunk];
    s.(nextChunk := s.nextChunk + 1, numRead := s.numRead + |chunk|, tmp := Some(Buffer(s.numRead, chunk, 0)))
  }

  /** The latest data has not been copied by any worker. */
  predicate MustWait(s: State) {
    s.list != [] && s.list[|s.list| - 1].copySync == 0 && !s.rEnd
  }

  /** How many buffers at the front every worker has copied. */
  function Stale(list: seq<Buffer>, workers: nat): (n: nat)
    ensures n <= |list|
  {
    if list != [] && list[0].copySync >= workers then 1 + Stale(list[1..], workers) else 0
  }

  function Length(list: seq<Buffer>): nat {
    if list == [] then 0 else |list[0].newPos| + Length(list[1..])
  }

  function PushTmp(s: State): State
    requires s.tmp.Some?
  {
    var n := Stale(s.list, |s.workers|);
    s.(tmp := None, list := s.list[n..] + [s.tmp.value], popped := s.popped + Length(s.list[..n]),
       pushed := s.pushed + |s.tmp.value.newPos|)
  }

  // ----- the workers

  /** One pass over the list: every buffer that starts at or past the end of the window is appended
      to it and its counter bumped. */
  function Copy(list: seq<Buffer>, end: nat): (r: (seq<Buffer>, seq<nat>))
    ensures |r.0| == |list|
  {
    if list == [] then ([], [])
    else
      var b := list[0];
      if b.offset >= end then
        var (rest, data) := Copy(list[1..], end + |b.newPos|);
        ([b.(copySync := b.copySync + 1)] + rest, b.newPos + data)
      else
        var (rest, data) := Copy(list[1..], end);
        ([b] + rest, data)
  }

  predicate HasNew(list: seq<Buffer>, end: nat) {
    exists i :: 0 <= i < |list| && list[i].offset >= end
  }

  /** The entry a worker is at, while it is at one. */
  predicate AtEntry(input: Input, w: Worker) {
    w.chunk < |input.work| && w.next < |input.work[w.chunk]|
  }

  function Current(input: Input, w: Worker): Entry
    requires AtEntry(input, w)
  {
    input.work[w.chunk][w.next]
  }

  /** `L_buffer.new_pos.size() > pos[1]` */
  predicate Reaches(w: Worker, e: Entry) {
    e.pos + e.off < End(w)
  }

  function Emit(w: Worker, e: Entry): Worker
    requires w.offset <= e.pos && Reaches(w, e)
  {
    var merged := Merged(e.key, w.newPos[e.pos - w.offset], w.newPos[e.pos + e.off - w.offset]);
    w.(out := w.out + [merged], next := w.next + 1, pc := Fetch)
  }

  /** Drops what lies before the last position and leaves the chunk. */
  function Finish(w: Worker): Worker {
    var count := if w.last > w.offset then (if w.last - w.offset < |w.newPos| then w.last - w.offset else |w.newPos|) else 0;
    w.(offset := w.offset + count, newPos := w.newPos[count..], pc := Outside, from := w.chunk + 1)
  }

  function With(s: State, i: nat, w: Worker): State
    requires i < |s.workers|
  {
    s.(workers := s.workers[i := w])
  }

  function HandOn(s: State, w: Worker): State {
    s.(done := s.done[w.chunk := w.out])
  }

  ghost predicate WorkerStep(input: Input, s: State, s': State, i: nat)
    requires i < |s.workers|
  {
    var w := s.workers[i];
    match w.pc
    case Outside =>
      && s.nextWork < |input.work| && s.nextWork % |s.workers| == i
      && s' == With(s, i, w.(pc := Fetch, chunk := s.nextWork, next := 0, last := 0, out := [])).(nextWork := s.nextWork + 1)
    case Fetch =>
      if !AtEntry(input, w) then s' == HandOn(With(s, i, Finish(w)), w)
      else if Current(input, w).pos < w.offset then s' == With(s, i, w.(pc := NotSorted))
      else s' == With(s, i, w.(pc := Extend, last := Current(input, w).pos))
    case Extend =>
      && AtEntry(input, w) && w.offset <= Current(input, w).pos
      && (if Reaches(w, Current(input, w)) then s' == With(s, i, Emit(w, Current(input, w)))
          else
            && (HasNew(s.list, End(w)) || s.lEnd)
            && var (list, data) := Copy(s.list, End(w));
               s' == With(s.(list := list), i, w.(newPos := w.newPos + data, pc := Check(s.lEnd))))
    case Check(sawEnd) =>
      && AtEntry(input, w) && w.offset <= Current(input, w).pos
      && s' == With(s, i, if !s.lEnd then w.(pc := Extend)
                          else if Reaches(w, Current(input, w)) then Emit(w, Current(input, w))
                          else w.(pc := OutOfBounds(sawEnd)))
    case NotSorted => false
    case OutOfBounds(_) => false
  }

  ghost predicate Init(input: Input, s: State) {
    && s.nextChunk == s.numRead == s.nextWork == s.popped == s.pushed == 0
    && s.tmp == None && s.list == [] && !s.lEnd && !s.rEnd && s.done == map[]
    && |s.workers| >= 1
    && forall i :: 0 <= i < |s.workers| ==> s.workers[i] == Worker(0, [], Outside, 0, 0, 0, [], 0)
  }

  ghost predicate Next(input: Input, s: State, s': State) {
    || (s.tmp == None && s.nextChunk < |input.chunks| && s' == Build(input, s))
    || (s.tmp.Some? && !MustWait(s) && s' == PushTmp(s))
    || (s.tmp == None && s.nextChunk == |input.chunks| && s' == s.(lEnd := true))
    || (s.nextWork == |input.work| && (forall i :: 0 <= i < |s.workers| ==> s.workers[i].pc.Outside?)
        && s' == s.(rEnd := true))
    || exists i: nat :: i < |s.workers| && WorkerStep(input, s, s', i)
  }

  ghost predicate Run(input: Input, run: seq<State>) {
    |run| > 0 && Init(input, run[0]) && forall i :: 0 <= i < |run| - 1 ==> Next(input, run[i], run[i + 1])
  }

  // ----- the list is a stretch of the stream

  ghost predicate Listed(list: seq<Buffer>, stream: seq<nat>, from: nat, to: nat) {
    if list == [] then from == to
    else
      && list[0].offset == from && from + |list[0].newPos| <= |stream|
      && list[0].newPos == stream[from..from + |list[0].newPos|]
      && Listed(list[1..], stream, from + |list[0].newPos|, to)
  }

  /** `end` is where some buffer of the list starts, or where the last one ends. */
  ghost predicate Boundary(list: seq<Buffer>, from: nat, end: nat) {
    end == from || (list != [] && Boundary(list[1..], from + |list[0].newPos|, end))
  }

  lemma {:induction false} BoundaryRange(list: seq<Buffer>, stream: seq<nat>, from: nat, to: nat, end: nat)
    requires Listed(list, stream, from, to) && Boundary(list, from, end)
    ensures from <= end <= to
  {
    if list != [] {
      ListedRange(list, stream, from, to);
      if end != from {
        BoundaryRange(list[1..], stream, from + |list[0].newPos|, to, end);
      }
    }
  }

  lemma {:induction false} ListedRange(list: seq<Buffer>, stream: seq<nat>, from: nat, to: nat)
    requires Listed(list, stream, from, to)
    ensures from <= to && (list != [] ==> to <= |stream|)
    ensures to == from + Length(list)
  {
    if list != [] {
      ListedRange(list[1..], stream, from + |list[0].newPos|, to);
    }
  }

  lemma {:induction false} EndIsBoundary(list: seq<Buffer>, stream: seq<nat>, from: nat, to: nat)
    requires Listed(list, stream, from, to)
    ensures Boundary(list, from, to)
  {
    if list != [] {
      EndIsBoundary(list[1..], stream, from + |list[0].newPos|, to);
    }
  }

  lemma SliceSplit(stream: seq<nat>, a: nat, b: nat, c: nat)
    requires a <= b <= c <= |stream|
    ensures stream[a..c] == stream[a..b] + stream[b..c]
  {
  }

  /** One pass brings a window that ends at a boundary up to the end of the list. */
  lemma {:induction false} CopyReachesEnd(list: seq<Buffer>, stream: seq<nat>, from: nat, to: nat, end: nat)
    requires Listed(list, stream, from, to) && Boundary(list, from, end) && to <= |stream|
    ensures from <= end <= to
    ensures Copy(list, end).1 == stream[end..to]
    ensures Listed(Copy(list, end).0, stream, from, to)
    decreases |list|
  {
    BoundaryRange(list, stream, from, to, end);
    if list != [] {
      var next := from + |list[0].newPos|;
      ListedRange(list[1..], stream, next, to);
      if end == from {
        CopyReachesEnd(list[1..], stream, next, to, next);
        SliceSplit(stream, from, next, to);
      } else {
        BoundaryRange(list[1..], stream, next, to, end);
        CopyReachesEnd(list[1..], stream, next, to, end);
      }
    }
  }

  // ----- the copy counters

  function Ends(workers: seq<Worker>): (r: seq<nat>)
    ensures |r| == |workers|
  {
    seq(|workers|, i requires 0 <= i < |workers| => End(workers[i]))
  }

  /** How many windows reach past x. */
  function CountPast(ends: seq<nat>, x: nat): (n: nat)
    ensures n <= |ends|
  {
    if ends == [] then 0 else (if ends[0] > x then 1 else 0) + CountPast(ends[1..], x)
  }

  lemma {:induction false} AllPast(ends: seq<nat>, x: nat, i: nat)
    requires CountPast(ends, x) >= |ends| && i < |ends|
    ensures ends[i] > x
  {
    if i > 0 {
      AllPast(ends[1..], x, i - 1);
    }
  }

  lemma {:induction false} NonePast(ends: seq<nat>, x: nat)
    requires forall i :: 0 <= i < |ends| ==> ends[i] <= x
    ensures CountPast(ends, x) == 0
  {
    if ends != [] {
      NonePast(ends[1..], x);
    }
  }

  lemma {:induction false} CountUpdate(ends: seq<nat>, x: nat, i: nat, end: nat)
    requires i < |ends|
    ensures CountPast(ends[i := end], x) + (if ends[i] > x then 1 else 0)
         == CountPast(ends, x) + (if end > x then 1 else 0)
  {
    if i == 0 {
      assert ends[i := end][1..] == ends[1..];
    } else {
      CountUpdate(ends[1..], x, i - 1, end);
      assert ends[i := end][1..] == ends[1..][i - 1 := end];
    }
  }

  /** The counter of every nonempty buffer is the number of workers that have copied it. */
  ghost predicate Synced(list: seq<Buffer>, ends: seq<nat>) {
    forall k :: 0 <= k < |list| && list[k].newPos != [] ==> list[k].copySync == CountPast(ends, list[k].offset)
  }

  ghost predicate InRange(list: seq<Buffer>, from: nat, to: nat) {
    forall k :: 0 <= k < |list| ==> from <= list[k].offset && list[k].offset + |list[k].newPos| <= to
  }

  lemma {:induction false} ListedInRange(list: seq<Buffer>, stream: seq<nat>, from: nat, to: nat)
    requires Listed(list, stream, from, to)
    ensures InRange(list, from, to)
  {
    ListedRange(list, stream, from, to);
    if list != [] {
      ListedInRange(list[1..], stream, from + |list[0].newPos|, to);
    }
  }

  /** A pass bumps the counters of exactly the buffers it copies. */
  lemma {:induction false} CopyBumps(list: seq<Buffer>, stream: seq<nat>, from: nat, to: nat, end: nat, k: nat)
    requires Listed(list, stream, from, to) && Boundary(list, from, end) && k < |list|
    ensures Copy(list, end).0[k] == list[k].(copySync := list[k].copySync + if list[k].offset >= end then 1 else 0)
    decreases |list|
  {
    var next := from + |list[0].newPos|;
    BoundaryRange(list, stream, from, to, end);
    if k > 0 {
      if end == from {
        CopyBumps(list[1..], stream, next, to, next, k - 1);
        ListedInRange(list[1..], stream, next, to);
      } else {
        CopyBumps(list[1..], stream, next, to, end, k - 1);
      }
    }
  }

  lemma CopyKeepsSynced(list: seq<Buffer>, stream: seq<nat>, from: nat, to: nat, ends: seq<nat>, i: nat)
    requires Listed(list, stream, from, to) && Synced(list, ends)
    requires i < |ends| && Boundary(list, from, ends[i])
    ensures Synced(Copy(list, ends[i]).0, ends[i := to])
  {
    var list' := Copy(list, ends[i]).0;
    ListedInRange(list, stream, from, to);
    BoundaryRange(list, stream, from, to, ends[i]);
    forall k | 0 <= k < |list'| && list'[k].newPos != []
      ensures list'[k].copySync == CountPast(ends[i := to], list'[k].offset)
    {
      CopyBumps(list, stream, from, to, ends[i], k);
      CountUpdate(ends, list[k].offset, i, to);
    }
  }

  /** A copy leaves boundaries where they are. */
  lemma {:induction false} CopyKeepsBoundary(list: seq<Buffer>, from: nat, end: nat, other: nat)
    ensures Boundary(Copy(list, end).0, from, other) == Boundary(list, from, other)
    decreases |list|
  {
    if list != [] {
      var b := list[0];
      CopyKeepsBoundary(list[1..], from + |b.newPos|, if b.offset >= end then end + |b.newPos| else end, other);
    }
  }

  /** Discarding stale buffers discards nothing that some worker still needs. */
  lemma {:induction false} PopKeeps(list: seq<Buffer>, stream: seq<nat>, from: nat, to: nat, ends: seq<nat>)
    requires Listed(list, stream, from, to) && Synced(list, ends)
    requires forall i :: 0 <= i < |ends| ==> Boundary(list, from, ends[i])
    ensures var n := Stale(list, |ends|);
            var from' := from + Length(list[..n]);
            && Listed(list[n..], stream, from', to) && Synced(list[n..], ends)
            && forall i :: 0 <= i < |ends| ==> Boundary(list[n..], from', ends[i])
  {
    var n := Stale(list, |ends|);
    if n == 0 {
      assert list[..0] == [] && list[0..] == list;
    } else {
      var next := from + |list[0].newPos|;
      forall i | 0 <= i < |ends|
        ensures Boundary(list[1..], next, ends[i])
      {
        if list[0].newPos != [] {
          AllPast(ends, list[0].offset, i);
        }
      }
      PopKeeps(list[1..], stream, next, to, ends);
      assert list[..n][1..] == list[1..][..n - 1] && list[1..][n - 1..] == list[n..];
    }
  }

  lemma {:induction false} AppendListed(list: seq<Buffer>, stream: seq<nat>, from: nat, to: nat, b: Buffer)
    requires Listed(list, stream, from, to) && Listed([b], stream, to, to + |b.newPos|)
    ensures Listed(list + [b], stream, from, to + |b.newPos|)
  {
    if list == [] {
      assert list + [b] == [b];
    } else {
      assert (list + [b])[1..] == list[1..] + [b];
      AppendListed(list[1..], stream, from + |list[0].newPos|, to, b);
    }
  }

  lemma {:induction false} AppendBoundary(list: seq<Buffer>, from: nat, end: nat, b: Buffer)
    requires Boundary(list, from, end)
    ensures Boundary(list + [b], from, end)
  {
    if list != [] && end != from {
      assert (list + [b])[1..] == list[1..] + [b];
      AppendBoundary(list[1..], from + |list[0].newPos|, end, b);
    }
  }

  // ----- the invariant

  /** What the merge stage promises for one entry. */
  ghost predicate IsMerged(stream: seq<nat>, e: Entry, m: Merged) {
    && e.pos + e.off < |stream|
    && m == Merged(e.key, stream[e.pos], stream[e.pos + e.off])
  }

  ghost predicate AllMerged(stream: seq<nat>, entries: seq<Entry>, n: nat, out: seq<Merged>) {
    n <= |entries| && |out| == n && forall k :: 0 <= k < n ==> IsMerged(stream, entries[k], out[k])
  }

  /** The window is the stretch of the stream that starts at the worker's offset, and what the worker
      has put out so far are the merged entries of its chunk. */
  ghost predicate WorkerOk(input: Input, stream: seq<nat>, w: Worker, lEnd: bool) {
    && End(w) <= |stream| && w.newPos == stream[w.offset..End(w)]
    && (!w.pc.Outside? ==> w.chunk < |input.work| && AllMerged(stream, input.work[w.chunk], w.next, w.out))
    && (w.pc.Outside? && w.from > 0 ==>
          w.from == w.chunk + 1 <= |input.work| && AllMerged(stream, input.work[w.chunk], |input.work[w.chunk]|, w.out))
    && (w.pc.Extend? || w.pc.Check? ==> AtEntry(input, w) && w.offset <= Current(input, w).pos)
    && (w.pc.Check? && w.pc.sawEnd ==> lEnd && End(w) == |stream|)
    && (w.pc.OutOfBounds? ==> lEnd && AtEntry(input, w) && !Reaches(w, Current(input, w)))
    && (w.pc.OutOfBounds? && w.pc.sawEnd ==> End(w) == |stream|)
  }

  ghost predicate ProducerOk(input: Input, s: State) {
    && s.nextChunk <= |input.chunks| && s.pushed <= s.numRead <= |Stream(input)|
    && Stream(input)[..s.numRead] == Flatten(input.chunks[..s.nextChunk])
    && (s.tmp == None ==> s.pushed == s.numRead)
    && (s.tmp.Some? ==> s.tmp.value.copySync == 0 && s.pushed + |s.tmp.value.newPos| == s.numRead
                        && Listed([s.tmp.value], Stream(input), s.pushed, s.numRead))
    && (s.lEnd ==> s.tmp == None && s.nextChunk == |input.chunks|)
  }

  ghost predicate ListOk(stream: seq<nat>, s: State) {
    && Listed(s.list, stream, s.popped, s.pushed)
    && Synced(s.list, Ends(s.workers))
    && forall i :: 0 <= i < |s.workers| ==> Boundary(s.list, s.popped, Ends(s.workers)[i])
  }

  ghost predicate Inv(input: Input, s: State) {
    && |s.workers| >= 1 && ProducerOk(input, s) && ListOk(Stream(input), s)
    && forall i :: 0 <= i < |s.workers| ==> WorkerOk(input, Stream(input), s.workers[i], s.lEnd)
  }

  lemma AllRead(input: Input, s: State)
    requires ProducerOk(input, s) && s.lEnd
    ensures s.pushed == |Stream(input)|
  {
    assert input.chunks[..s.nextChunk] == input.chunks;
  }

  lemma BuildKeeps(input: Input, s: State)
    requires Inv(input, s) && s.tmp == None && s.nextChunk < |input.chunks|
    ensures Inv(input, Build(input, s))
  {
    hide WorkerOk;
    var chunk, s' := input.chunks[s.nextChunk], Build(input, s);
    var read := Flatten(input.chunks[..s.nextChunk]);
    FlattenNext(input.chunks, s.nextChunk);
    FlattenPrefix(input.chunks, s.nextChunk + 1);
    assert |read| == s.numRead;
    assert Stream(input)[..s'.numRead] == read + chunk;
    assert Stream(input)[s.pushed..s'.numRead] == chunk;
    assert Listed([s'.tmp.value][1..], Stream(input), s'.numRead, s'.numRead);
    if s.lEnd {
      assert false;
    }
  }

  lemma PushKeeps(input: Input, s: State)
    requires Inv(input, s) && s.tmp.Some?
    ensures Inv(input, PushTmp(s))
  {
    hide WorkerOk;
    var stream, ends, b, s' := Stream(input), Ends(s.workers), s.tmp.value, PushTmp(s);
    PopKeeps(s.list, stream, s.popped, s.pushed, ends);
    var rest := s.list[Stale(s.list, |s.workers|)..];
    AppendListed(rest, stream, s'.popped, s.pushed, b);
    forall i | 0 <= i < |ends|
      ensures Boundary(s'.list, s'.popped, ends[i]) && ends[i] <= s.pushed
    {
      AppendBoundary(rest, s'.popped, ends[i], b);
      BoundaryRange(rest, stream, s'.popped, s.pushed, ends[i]);
    }
    NonePast(ends, b.offset);
  }

  lemma EndKeeps(input: Input, s: State)
    requires Inv(input, s) && s.tmp == None && s.nextChunk == |input.chunks|
    ensures Inv(input, s.(lEnd := true))
  {
  }

  /** A worker that leaves its window's end alone. */
  lemma LocalKeeps(input: Input, s: State, i: nat, w: Worker)
    requires Inv(input, s) && i < |s.workers| && End(w) == End(s.workers[i])
    requires WorkerOk(input, Stream(input), w, s.lEnd)
    ensures Inv(input, With(s, i, w))
  {
    hide WorkerOk, End;
    assert Ends(With(s, i, w).workers) == Ends(s.workers);
  }

  lemma EmitOk(input: Input, s: State, w: Worker)
    requires WorkerOk(input, Stream(input), w, s.lEnd) && !w.pc.Outside? && !w.pc.OutOfBounds?
    requires AtEntry(input, w) && w.offset <= Current(input, w).pos && Reaches(w, Current(input, w))
    ensures WorkerOk(input, Stream(input), Emit(w, Current(input, w)), s.lEnd)
    ensures End(Emit(w, Current(input, w))) == End(w)
  {
  }

  lemma ExtendedOk(input: Input, s: State, w: Worker, data: seq<nat>)
    requires WorkerOk(input, Stream(input), w, s.lEnd) && w.pc.Extend? && ProducerOk(input, s)
    requires End(w) <= s.pushed && data == Stream(input)[End(w)..s.pushed]
    ensures var w' := w.(newPos := w.newPos + data, pc := Check(s.lEnd));
            WorkerOk(input, Stream(input), w', s.lEnd) && End(w') == s.pushed
  {
    if s.lEnd {
      AllRead(input, s);
    }
  }

  lemma ExtendKeeps(input: Input, s: State, i: nat)
    requires Inv(input, s) && i < |s.workers| && s.workers[i].pc.Extend?
    ensures var w := s.workers[i];
            var (list, data) := Copy(s.list, End(w));
            Inv(input, With(s.(list := list), i, w.(newPos := w.newPos + data, pc := Check(s.lEnd))))
  {
    hide WorkerOk;
    var w, stream, ends := s.workers[i], Stream(input), Ends(s.workers);
    var (list, data) := Copy(s.list, End(w));
    var w' := w.(newPos := w.newPos + data, pc := Check(s.lEnd));
    var s' := With(s.(list := list), i, w');
    CopyReachesEnd(s.list, stream, s.popped, s.pushed, ends[i]);
    CopyKeepsSynced(s.list, stream, s.popped, s.pushed, ends, i);
    ExtendedOk(input, s, w, data);
    assert Ends(s'.workers) == ends[i := s.pushed];
    EndIsBoundary(s.list, stream, s.popped, s.pushed);
    forall j | 0 <= j < |ends|
      ensures Boundary(list, s.popped, Ends(s'.workers)[j])
    {
      CopyKeepsBoundary(s.list, s.popped, End(w), Ends(s'.workers)[j]);
    }
  }

  lemma FinishOk(input: Input, s: State, w: Worker)
    requires WorkerOk(input, Stream(input), w, s.lEnd) && w.pc == Fetch && !AtEntry(input, w)
    ensures WorkerOk(input, Stream(input), Finish(w), s.lEnd) && End(Finish(w)) == End(w)
  {
  }

  lemma WorkerKeeps(input: Input, s: State, s': State, i: nat)
    requires Inv(input, s) && i < |s.workers| && WorkerStep(input, s, s', i)
    ensures Inv(input, s')
  {
    var w := s.workers[i];
    hide Inv, ListOk, ProducerOk;
    match w.pc
    case Outside =>
      var w' := w.(pc := Fetch, chunk := s.nextWork, next := 0, last := 0, out := []);
      assert WorkerOk(input, Stream(input), w, s.lEnd) by { WorkersOk(input, s, i); }
      LocalKeeps(input, s, i, w');
      CountsOnly(input, With(s, i, w'), s');
    case Fetch =>
      WorkersOk(input, s, i);
      if !AtEntry(input, w) {
        FinishOk(input, s, w);
        LocalKeeps(input, s, i, Finish(w));
        CountsOnly(input, With(s, i, Finish(w)), s');
      } else if Current(input, w).pos < w.offset {
        LocalKeeps(input, s, i, w.(pc := NotSorted));
      } else {
        LocalKeeps(input, s, i, w.(pc := Extend, last := Current(input, w).pos));
      }
    case Extend =>
      WorkersOk(input, s, i);
      if Reaches(w, Current(input, w)) {
        EmitOk(input, s, w);
        LocalKeeps(input, s, i, Emit(w, Current(input, w)));
      } else {
        ExtendKeeps(input, s, i);
      }
    case Check(sawEnd) =>
      WorkersOk(input, s, i);
      if !s.lEnd {
        LocalKeeps(input, s, i, w.(pc := Extend));
      } else if Reaches(w, Current(input, w)) {
        EmitOk(input, s, w);
        LocalKeeps(input, s, i, Emit(w, Current(input, w)));
      } else {
        LocalKeeps(input, s, i, w.(pc := OutOfBounds(sawEnd)));
      }
    case _ =>
  }

  lemma WorkersOk(input: Input, s: State, i: nat)
    requires Inv(input, s) && i < |s.workers|
    ensures WorkerOk(input, Stream(input), s.workers[i], s.lEnd)
  {
  }

  lemma CountsOnly(input: Input, s: State, s': State)
    requires Inv(input, s) && s' == s.(nextWork := s'.nextWork, done := s'.done)
    ensures Inv(input, s')
  {
  }

  lemma InitInv(input: Input, s: State)
    requires Init(input, s)
    ensures Inv(input, s)
  {
    FlattenPrefix(input.chunks, 0);
  }

  lemma {:induction false} RunKeeps(input: Input, run: seq<State>, k: nat)
    requires Run(input, run) && k < |run|
    ensures Inv(input, run[k])
  {
    hide Inv, WorkerStep, Build, PushTmp, MustWait;
    if k == 0 {
      InitInv(input, run[0]);
    } else {
      RunKeeps(input, run, k - 1);
      assert Next(input, run[k - 1], run[k]);
      StepKeeps(input, run[k - 1], run[k]);
    }
  }

  lemma StepKeeps(input: Input, s: State, s': State)
    requires Inv(input, s) && Next(input, s, s')
    ensures Inv(input, s')
  {
    hide ListOk, ProducerOk, WorkerOk, WorkerStep, Build, PushTmp, MustWait;
    if s.tmp == None && s.nextChunk < |input.chunks| && s' == Build(input, s) {
      BuildKeeps(input, s);
    } else if s.tmp.Some? && !MustWait(s) && s' == PushTmp(s) {
      PushKeeps(input, s);
    } else if s.tmp == None && s.nextChunk == |input.chunks| && s' == s.(lEnd := true) {
      EndKeeps(input, s);
    } else if exists i: nat :: i < |s.workers| && WorkerStep(input, s, s', i) {
      var i: nat :| i < |s.workers| && WorkerStep(input, s, s', i);
      WorkerKeeps(input, s, s', i);
    } else {
      ReadEndKeeps(input, s);
    }
  }

  lemma ReadEndKeeps(input: Input, s: State)
    requires Inv(input, s)
    ensures Inv(input, s.(rEnd := true))
  {
  }

  // ----- what holds in every run

  /** Every worker's window is the stretch of the L stream that starts at its offset. */
  lemma WindowIsSlice(input: Input, run: seq<State>, k: nat, i: nat)
    requires Run(input, run) && k < |run| && i < |run[k].workers|
    ensures var w := run[k].workers[i];
            End(w) <= |Stream(input)| && w.newPos == Stream(input)[w.offset..End(w)]
  {
    RunKeeps(input, run, k);
    WorkersOk(input, run[k], i);
  }

  /** What has been discarded from the list had been copied by every worker, the list holds all that
      has been handed out since, and a nonempty chunk counts exactly the workers that have it. */
  lemma NothingNeededIsDiscarded(input: Input, run: seq<State>, k: nat)
    requires Run(input, run) && k < |run|
    ensures var s := run[k];
            && (forall i :: 0 <= i < |s.workers| ==> s.popped <= End(s.workers[i]))
            && Listed(s.list, Stream(input), s.popped, s.pushed)
            && Synced(s.list, Ends(s.workers))
  {
    RunKeeps(input, run, k);
    var s := run[k];
    forall i | 0 <= i < |s.workers|
      ensures s.popped <= End(s.workers[i])
    {
      BoundaryRange(s.list, Stream(input), s.popped, s.pushed, Ends(s.workers)[i]);
    }
  }

  /** Every entry put out holds the L values at its two positions; a finished chunk is complete. */
  lemma EmittedAreMerged(input: Input, run: seq<State>, k: nat, i: nat)
    requires Run(input, run) && k < |run| && i < |run[k].workers|
    ensures var w, stream := run[k].workers[i], Stream(input);
            && (!w.pc.Outside? ==> w.chunk < |input.work| && AllMerged(stream, input.work[w.chunk], w.next, w.out))
            && (w.pc.Outside? && w.from > 0 ==>
                  w.chunk < |input.work| && AllMerged(stream, input.work[w.chunk], |input.work[w.chunk]|, w.out))
  {
    RunKeeps(input, run, k);
    WorkersOk(input, run[k], i);
  }

  // ----- what has been handed on

  /** Chunk c is in the hands of a worker. */
  ghost predicate InHand(s: State, c: nat) {
    exists i :: 0 <= i < |s.workers| && !s.workers[i].pc.Outside? && s.workers[i].chunk == c
  }

  /** Every chunk dealt so far has been handed on or is in the hands of a worker, and what has been handed on
      is complete. */
  ghost predicate Dealt(input: Input, s: State) {
    && s.nextWork <= |input.work|
    && (forall c: nat :: c < s.nextWork ==> c in s.done || InHand(s, c))
    && forall c :: c in s.done ==> c < |input.work| && AllMerged(Stream(input), input.work[c], |input.work[c]|, s.done[c])
  }

  lemma DealtKept(input: Input, s: State, s': State)
    requires Inv(input, s) && Dealt(input, s) && Next(input, s, s')
    ensures Dealt(input, s')
  {
    hide Inv, AllMerged, WorkerStep;
    if exists i: nat :: i < |s.workers| && WorkerStep(input, s, s', i) {
      var i: nat :| i < |s.workers| && WorkerStep(input, s, s', i);
      WorkerDeals(input, s, s', i);
    } else {
      forall c: nat | c < s'.nextWork
        ensures c in s'.done || InHand(s', c)
      {
        assert c in s.done || InHand(s, c);
      }
    }
  }

  /** What a step of worker i does to the chunks: it takes the next one, keeps its own, or hands it on. */
  ghost predicate Deals(input: Input, s: State, s': State, i: nat)
    requires i < |s.workers|
  {
    && |s'.workers| == |s.workers| && (forall j :: 0 <= j < |s.workers| && j != i ==> s'.workers[j] == s.workers[j])
    && var w, w' := s.workers[i], s'.workers[i];
       if w.pc.Outside? then
         s'.nextWork == s.nextWork + 1 <= |input.work| && s'.done == s.done && !w'.pc.Outside? && w'.chunk == s.nextWork
       else
         && s'.nextWork == s.nextWork
         && if w'.pc.Outside? then s'.done == s.done[w.chunk := w.out] && !AtEntry(input, w)
            else s'.done == s.done && w'.chunk == w.chunk
  }

  lemma WorkerSteps(input: Input, s: State, s': State, i: nat)
    requires i < |s.workers| && WorkerStep(input, s, s', i)
    ensures Deals(input, s, s', i)
  {
    hide Copy, HasNew, Reaches, End, AllMerged;
  }

  lemma WorkerDeals(input: Input, s: State, s': State, i: nat)
    requires Inv(input, s) && Dealt(input, s) && i < |s.workers| && WorkerStep(input, s, s', i)
    ensures Dealt(input, s')
  {
    WorkersOk(input, s, i);
    WorkerSteps(input, s, s', i);
    hide Inv, AllMerged, WorkerStep;
    var w := s.workers[i];
    forall c: nat | c < s'.nextWork && c !in s'.done
      ensures InHand(s', c)
    {
      if c < s.nextWork {
        assert InHand(s, c);
        var j :| 0 <= j < |s.workers| && !s.workers[j].pc.Outside? && s.workers[j].chunk == c;
        assert !s'.workers[j].pc.Outside? && s'.workers[j].chunk == c;
      } else {
        assert !s'.workers[i].pc.Outside? && s'.workers[i].chunk == c;
      }
    }
    if !w.pc.Outside? && s'.workers[i].pc.Outside? {
      WholeChunk(input, s, w);
    }
  }

  lemma WholeChunk(input: Input, s: State, w: Worker)
    requires WorkerOk(input, Stream(input), w, s.lEnd) && !w.pc.Outside? && !AtEntry(input, w)
    ensures w.chunk < |input.work| && AllMerged(Stream(input), input.work[w.chunk], |input.work[w.chunk]|, w.out)
  {
  }

  lemma InitDealt(input: Input, s: State)
    requires Init(input, s)
    ensures Dealt(input, s)
  {
  }

  lemma {:induction false} RunDeals(input: Input, run: seq<State>, k: nat)
    requires Run(input, run) && k < |run|
    ensures Dealt(input, run[k])
  {
    hide Inv, Next, Dealt;
    if k == 0 {
      InitDealt(input, run[0]);
    } else {
      RunDeals(input, run, k - 1);
      RunKeeps(input, run, k - 1);
      assert Next(input, run[k - 1], run[k]);
      DealtKept(input, run[k - 1], run[k]);
    }
  }

  /** The run has ended: both streams are at their ends and every worker has left its chunk. */
  ghost predicate Finished(input: Input, s: State) {
    s.lEnd && s.rEnd && s.nextWork == |input.work| && forall i :: 0 <= i < |s.workers| ==> s.workers[i].pc.Outside?
  }

  /** A run that ends without an exception has handed on every chunk, merged. */
  lemma AllHandedOn(input: Input, run: seq<State>, s: State)
    requires Run(input, run) && s == run[|run| - 1] && Finished(input, s)
    ensures forall c: nat :: c < |input.work| ==>
              c in s.done && AllMerged(Stream(input), input.work[c], |input.work[c]|, s.done[c])
  {
    hide AllMerged, Next;
    RunDeals(input, run, |run| - 1);
    forall c: nat | c < |input.work|
      ensures c in s.done
    {
      assert c in s.done || InHand(s, c);
    }
  }

  // ----- "input not sorted" is never thrown for a sorted R table

  ghost predicate SortedWork(work: seq<seq<Entry>>) {
    forall r, k, r', k' ::
      (0 <= r <= r' < |work| && 0 <= k < |work[r]| && 0 <= k' < |work[r']| && (r < r' || k <= k'))
      ==> work[r][k].pos <= work[r'][k'].pos
  }

  /** No entry from chunk `from` on lies before x. */
  ghost predicate NotBefore(work: seq<seq<Entry>>, from: nat, x: nat) {
    forall r, k :: from <= r < |work| && 0 <= k < |work[r]| ==> x <= work[r][k].pos
  }

  ghost predicate OffsetOk(input: Input, s: State, w: Worker) {
    && w.from <= s.nextWork <= |input.work| && NotBefore(input.work, w.from, w.offset) && !w.pc.NotSorted?
    && (!w.pc.Outside? ==>
          && w.from <= w.chunk < s.nextWork
          && w.next <= |input.work[w.chunk]|
          && NotBefore(input.work, w.chunk + 1, w.last))
  }

  ghost predicate OffsetsOk(input: Input, s: State) {
    forall i :: 0 <= i < |s.workers| ==> OffsetOk(input, s, s.workers[i])
  }

  lemma OffsetsKept(input: Input, s: State, s': State)
    requires SortedWork(input.work) && OffsetsOk(input, s) && Next(input, s, s')
    ensures OffsetsOk(input, s')
  {
    if exists i: nat :: i < |s.workers| && WorkerStep(input, s, s', i) {
      var i: nat :| i < |s.workers| && WorkerStep(input, s, s', i);
      OffsetKept(input, s, s', i);
    }
  }

  lemma OffsetKept(input: Input, s: State, s': State, i: nat)
    requires SortedWork(input.work) && OffsetsOk(input, s) && i < |s.workers| && WorkerStep(input, s, s', i)
    ensures OffsetsOk(input, s')
  {
    assert OffsetOk(input, s, s.workers[i]);
    OffsetStep(input, s, s', i);
    hide NotBefore, SortedWork, WorkerStep;
  }

  lemma OffsetStep(input: Input, s: State, s': State, i: nat)
    requires SortedWork(input.work) && i < |s.workers| && OffsetOk(input, s, s.workers[i]) && WorkerStep(input, s, s', i)
    ensures |s'.workers| == |s.workers| && s.nextWork <= s'.nextWork <= |input.work|
    ensures OffsetOk(input, s', s'.workers[i])
    ensures forall j :: 0 <= j < |s.workers| && j != i ==> s'.workers[j] == s.workers[j]
  {
    var w := s.workers[i];
    if w.pc == Fetch {
      if AtEntry(input, w) {
        EntryNotBefore(input.work, w.from, w.offset, w.chunk, w.next);
        NothingLaterBefore(input.work, w.chunk, w.next);
      } else {
        FinishNotBefore(input.work, w);
      }
    } else if w.pc == Outside {
      NotBeforeZero(input.work, s.nextWork + 1);
    }
    hide Copy, HasNew, Reaches, End, NotBefore, SortedWork, Finish;
  }

  lemma EntryNotBefore(work: seq<seq<Entry>>, from: nat, x: nat, r: nat, k: nat)
    requires NotBefore(work, from, x) && from <= r < |work| && k < |work[r]|
    ensures x <= work[r][k].pos
  {
  }

  lemma NothingLaterBefore(work: seq<seq<Entry>>, r: nat, k: nat)
    requires SortedWork(work) && r < |work| && k < |work[r]|
    ensures NotBefore(work, r + 1, work[r][k].pos)
  {
  }

  lemma NotBeforeZero(work: seq<seq<Entry>>, from: nat)
    ensures NotBefore(work, from, 0)
  {
  }

  lemma FinishNotBefore(work: seq<seq<Entry>>, w: Worker)
    requires NotBefore(work, w.from, w.offset) && w.from <= w.chunk && NotBefore(work, w.chunk + 1, w.last)
    ensures NotBefore(work, w.chunk + 1, Finish(w).offset)
    ensures Finish(w).from == w.chunk + 1 && Finish(w).pc == Outside
  {
  }

  lemma {:induction false} RunKeepsOffsets(input: Input, run: seq<State>, k: nat)
    requires Run(input, run) && SortedWork(input.work) && k < |run|
    ensures OffsetsOk(input, run[k])
  {
    hide OffsetsOk, Next, SortedWork;
    if k == 0 {
      assert OffsetsOk(input, run[0]) by { InitOffsets(input, run[0]); }
    } else {
      RunKeepsOffsets(input, run, k - 1);
      assert Next(input, run[k - 1], run[k]);
      OffsetsKept(input, run[k - 1], run[k]);
    }
  }

  lemma InitOffsets(input: Input, s: State)
    requires Init(input, s)
    ensures OffsetsOk(input, s)
  {
  }

  /** With R sorted by position no worker ever finds an entry before its window. */
  lemma SortedInputAccepted(input: Input, run: seq<State>, k: nat, i: nat)
    requires Run(input, run) && SortedWork(input.work) && k < |run| && i < |run[k].workers|
    ensures !run[k].workers[i].pc.NotSorted?
  {
    RunKeepsOffsets(input, run, k);
    assert OffsetOk(input, run[k], run[k].workers[i]);
  }

  // ----- "position out of bounds" is thrown for entries in range, but only by a race

  /** A worker that scanned the list with `L_is_end` already set has the rest of L in its window; so
      if it gives up on an entry that lies within L, the flag was set between its scan and its test. */
  lemma OutOfBoundsOnlyByRace(input: Input, run: seq<State>, k: nat, i: nat)
    requires Run(input, run) && k < |run| && i < |run[k].workers|
    requires run[k].workers[i].pc.OutOfBounds?
    ensures AtEntry(input, run[k].workers[i])
    ensures var w := run[k].workers[i];
            var e := Current(input, w);
            e.pos + e.off < |Stream(input)| ==> w.pc == OutOfBounds(false)
  {
    RunKeeps(input, run, k);
    WorkersOk(input, run[k], i);
  }

  const RACE_INPUT := Input([[10], [20]], [[Entry(7, 0, 1)]])

  function RaceWorker(newPos: seq<nat>, pc: Pc): Worker {
    Worker(0, newPos, pc, 0, 0, 0, [], 0)
  }

  /** One worker copies the first chunk; the second chunk and the end of L arrive before it tests the flag. */
  function Race(): seq<State> {
    var first, first1, second := Buffer(0, [10], 0), Buffer(0, [10], 1), Buffer(1, [20], 0);
    [ State(0, 0, None, [], false, false, [RaceWorker([], Outside)], 0, 0, 0, map[]),
      State(1, 1, Some(first), [], false, false, [RaceWorker([], Outside)], 0, 0, 0, map[]),
      State(1, 1, None, [first], false, false, [RaceWorker([], Outside)], 0, 0, 1, map[]),
      State(1, 1, None, [first], false, false, [RaceWorker([], Fetch)], 1, 0, 1, map[]),
      State(1, 1, None, [first], false, false, [RaceWorker([], Extend)], 1, 0, 1, map[]),
      State(1, 1, None, [first1], false, false, [RaceWorker([10], Check(false))], 1, 0, 1, map[]),
      State(2, 2, Some(second), [first1], false, false, [RaceWorker([10], Check(false))], 1, 0, 1, map[]),
      State(2, 2, None, [second], false, false, [RaceWorker([10], Check(false))], 1, 1, 2, map[]),
      State(2, 2, None, [second], true, false, [RaceWorker([10], Check(false))], 1, 1, 2, map[]),
      State(2, 2, None, [second], true, false, [RaceWorker([10], OutOfBounds(false))], 1, 1, 2, map[]) ]
  }

  /** The race is reachable: the entry's two positions are 0 and 1, L has two entries, and the run ends
      with the exception. */
  lemma RaceThrows()
    ensures Run(RACE_INPUT, Race())
    ensures |Stream(RACE_INPUT)| == 2
    ensures Race()[|Race()| - 1].workers[0].pc == OutOfBounds(false)
  {
    assert Flatten([[10], [20]][..1]) == [10] by { FlattenNext([[10], [20]], 0); }
    FlattenNext([[10], [20]], 1);
    assert [[10], [20]][..2] == [[10], [20]];
    forall i | 0 <= i < |Race()| - 1
      ensures Next(RACE_INPUT, Race()[i], Race()[i + 1])
    {
      RaceStep(i);
    }
  }

  lemma CopyOne(b: Buffer, end: nat)
    requires b.offset >= end
    ensures Copy([b], end).0 == [b.(copySync := b.copySync + 1)] && Copy([b], end).1 == b.newPos
  {
    var rest := [b][1..];
    assert rest == [];
    assert Copy([b], end).0 == [b.(copySync := b.copySync + 1)] + Copy(rest, end + |b.newPos|).0;
    assert Copy([b], end).1 == b.newPos + Copy(rest, end + |b.newPos|).1;
  }

  lemma LengthOne(b: Buffer)
    ensures Length([b]) == |b.newPos|
  {
    assert [b][1..] == [];
  }

  lemma RacePush()
    ensures Race()[7] == PushTmp(Race()[6])
  {
    var first := Race()[6].list[0];
    assert [first][1..] == [] && [first][..1] == [first];
    LengthOne(first);
    assert Stale([first][1..], 1) == 0;
    assert [] + [Race()[6].tmp.value] == [Race()[6].tmp.value];
  }

  lemma RaceStep(i: nat)
    requires i < |Race()| - 1
    ensures Next(RACE_INPUT, Race()[i], Race()[i + 1])
  {
    var s, s' := Race()[i], Race()[i + 1];
    if i == 4 {
      CopyOne(s.list[0], 0);
      assert s.list == [s.list[0]];
      assert s.workers[0].newPos + [10] == [10];
      assert HasNew(s.list, 0);
      assert WorkerStep(RACE_INPUT, s, s', 0);
    } else if i in {2, 3, 8} {
      assert WorkerStep(RACE_INPUT, s, s', 0);
    } else if i == 6 {
      RacePush();
    } else if i == 1 {
      assert s.list[0..] == [] && s.list[..0] == [];
    }
  }
}
