/** The merge stage gets on: in every run somebody can take a step until both streams are used up, and
    for R sorted by position and within L there is a run that hands on everything. */
module MergeProgress {
  import opened Sequences
  import opened Wrappers
  import opened MergeBuffer

  ghost predicate Threw(s: State) {
    exists i :: 0 <= i < |s.workers| && (s.workers[i].pc.NotSorted? || s.workers[i].pc.OutOfBounds?)
  }

  /** A worker that sleeps in its loop until L has more for it. */
  ghost predicate Sleeps(input: Input, s: State, w: Worker) {
    w.pc.Extend? && AtEntry(input, w) && !Reaches(w, Current(input, w)) && !HasNew(s.list, End(w)) && !s.lEnd
  }

  // ----- the producer is never blocked by sleepers

  lemma {:induction false} LastOfList(list: seq<Buffer>, stream: seq<nat>, from: nat, to: nat)
    requires Listed(list, stream, from, to) && list != []
    ensures var last := list[|list| - 1]; from <= last.offset && last.offset + |last.newPos| == to
  {
    ListedRange(list, stream, from, to);
    if |list| > 1 {
      var rest := list[1..];
      LastOfList(rest, stream, from + |list[0].newPos|, to);
      assert rest[|rest| - 1] == list[|list| - 1];
    }
  }

  lemma {:induction false} SomePast(ends: seq<nat>, x: nat, i: nat)
    requires i < |ends| && ends[i] > x
    ensures CountPast(ends, x) > 0
  {
    if i > 0 {
      SomePast(ends[1..], x, i - 1);
    }
  }

  /** If nobody has copied the latest chunk, every worker finds something new in the list. */
  lemma FreshIsNew(input: Input, s: State, i: nat)
    requires Inv(input, s) && i < |s.workers| && MustWait(s)
    ensures s.list[|s.list| - 1].offset >= End(s.workers[i]) && HasNew(s.list, End(s.workers[i]))
  {
    var last := s.list[|s.list| - 1];
    LastOfList(s.list, Stream(input), s.popped, s.pushed);
    BoundaryRange(s.list, Stream(input), s.popped, s.pushed, Ends(s.workers)[i]);
    if last.newPos != [] && End(s.workers[i]) > last.offset {
      SomePast(Ends(s.workers), last.offset, i);
    }
  }

  /** The producer's next step, when nothing holds it up. */
  function Produced(input: Input, s: State): State {
    if s.tmp.Some? then PushTmp(s)
    else if s.nextChunk < |input.chunks| then Build(input, s)
    else s.(lEnd := true)
  }

  predicate Blocked(s: State) {
    s.tmp.Some? && MustWait(s)
  }

  predicate ProducerDone(input: Input, s: State) {
    s.tmp == None && s.nextChunk >= |input.chunks| && s.lEnd
  }

  lemma ProducerSteps(input: Input, s: State)
    requires ProducerOk(input, s) && !Blocked(s) && !ProducerDone(input, s)
    ensures Next(input, s, Produced(input, s)) && Produced(input, s) != s
  {
  }

  // ----- a step for every worker that does not sleep

  /** What an awake worker does next. */
  function Stepped(input: Input, s: State, i: nat): State
    requires i < |s.workers|
  {
    var w := s.workers[i];
    match w.pc
    case Outside =>
      With(s, i, w.(pc := Fetch, chunk := s.nextWork, next := 0, last := 0, out := [])).(nextWork := s.nextWork + 1)
    case Fetch =>
      if !AtEntry(input, w) then HandOn(With(s, i, Finish(w)), w)
      else if Current(input, w).pos < w.offset then With(s, i, w.(pc := NotSorted))
      else With(s, i, w.(pc := Extend, last := Current(input, w).pos))
    case Extend =>
      if AtEntry(input, w) && w.offset <= Current(input, w).pos && Reaches(w, Current(input, w)) then
        With(s, i, Emit(w, Current(input, w)))
      else
        var (list, data) := Copy(s.list, End(w));
        With(s.(list := list), i, w.(newPos := w.newPos + data, pc := Check(s.lEnd)))
    case Check(sawEnd) =>
      if !s.lEnd then With(s, i, w.(pc := Extend))
      else if AtEntry(input, w) && w.offset <= Current(input, w).pos && Reaches(w, Current(input, w)) then
        With(s, i, Emit(w, Current(input, w)))
      else With(s, i, w.(pc := OutOfBounds(sawEnd)))
    case _ => s
  }

  predicate Dead(w: Worker) {
    w.pc.NotSorted? || w.pc.OutOfBounds?
  }

  lemma WorkerSteps(input: Input, s: State, i: nat)
    requires i < |s.workers| && WorkerOk(input, Stream(input), s.workers[i], s.lEnd)
    requires !Dead(s.workers[i]) && !Sleeps(input, s, s.workers[i])
    requires s.workers[i].pc.Outside? ==> s.nextWork < |input.work| && s.nextWork % |s.workers| == i
    ensures WorkerStep(input, s, Stepped(input, s, i), i)
    ensures Stepped(input, s, i).workers[i].pc != s.workers[i].pc
  {
    hide Copy, HasNew, AllMerged;
  }

  /** The stage never gets stuck: unless somebody has thrown or all work is done, some step changes
      something. */
  lemma NeverStuck(input: Input, run: seq<State>, k: nat) returns (s': State)
    requires Run(input, run) && k < |run| && !Threw(run[k]) && !Finished(input, run[k])
    ensures Next(input, run[k], s') && s' != run[k]
  {
    RunKeeps(input, run, k);
    RunDeals(input, run, k);
    var s := run[k];
    hide Inv, Dealt, WorkerStep, Stepped, Produced, Build, PushTmp, WorkerOk, ProducerOk, ListOk, Run;
    InvFacts(input, s);
    if i: nat :| i < |s.workers| && !s.workers[i].pc.Outside? && !Sleeps(input, s, s.workers[i]) {
      WorkersOk(input, s, i);
      WorkerSteps(input, s, i);
      s' := Stepped(input, s, i);
    } else if i: nat :| i < |s.workers| && Sleeps(input, s, s.workers[i]) {
      if MustWait(s) {
        FreshIsNew(input, s, i);
      }
      ProducerSteps(input, s);
      s' := Produced(input, s);
    } else if s.nextWork < |input.work| {
      var i := s.nextWork % |s.workers|;
      WorkersOk(input, s, i);
      WorkerSteps(input, s, i);
      s' := Stepped(input, s, i);
    } else if !s.rEnd {
      s' := s.(rEnd := true);
    } else {
      ProducerSteps(input, s);
      s' := Produced(input, s);
    }
  }

  lemma InvFacts(input: Input, s: State)
    requires Inv(input, s) && Dealt(input, s)
    ensures |s.workers| > 0 && ProducerOk(input, s) && s.nextWork <= |input.work|
    ensures s.lEnd ==> s.tmp == None && s.nextChunk == |input.chunks|
  {
  }

  // ----- a run that hands on everything

  ghost predicate InBounds(input: Input) {
    forall c, k :: 0 <= c < |input.work| && 0 <= k < |input.work[c]| ==>
      input.work[c][k].pos + input.work[c][k].off < |Stream(input)|
  }

  /** One worker, which has not thrown and has looked at the list after L ended. */
  ghost predicate Calm(s: State) {
    |s.workers| == 1 && !Dead(s.workers[0]) && (s.workers[0].pc.Check? && s.lEnd ==> s.workers[0].pc.sawEnd)
  }

  /** A schedule: the worker finishes its look at the list, then the producer goes as far as it can, then the
      worker. */
  function Chosen(input: Input, s: State): State
    requires |s.workers| == 1
  {
    var w := s.workers[0];
    if w.pc.Check? then Stepped(input, s, 0)
    else if !Blocked(s) && !ProducerDone(input, s) then Produced(input, s)
    else if !w.pc.Outside? || s.nextWork < |input.work| then Stepped(input, s, 0)
    else s.(rEnd := true)
  }

  // What the schedule uses up: steps of the producer and the end of R, the wait for a copy, entries, and
  // places in the loop of one entry.

  function StepsLeft(input: Input, s: State): int {
    2 * (|input.chunks| - s.nextChunk) + (if s.tmp.Some? then 1 else 0)
    + (if s.lEnd then 0 else 1) + if s.rEnd then 0 else 1
  }

  function Waits(s: State): nat {
    if MustWait(s) then 1 else 0
  }

  function WorkFrom(work: seq<seq<Entry>>, c: nat): nat
    decreases |work| - c
  {
    if c >= |work| then 0 else |work[c]| + 2 + WorkFrom(work, c + 1)
  }

  function WorkLeft(input: Input, s: State): int
    requires |s.workers| == 1
  {
    var w := s.workers[0];
    WorkFrom(input.work, s.nextWork)
    + if w.pc.Outside? || w.chunk >= |input.work| then 0 else |input.work[w.chunk]| - w.next + 1
  }

  function PlacesLeft(s: State): nat
    requires |s.workers| == 1
  {
    match s.workers[0].pc
    case Fetch => 3
    case Extend => if s.lEnd then 2 else 1
    case Check(_) => if s.lEnd then 1 else 2
    case _ => 0
  }

  /** `s'` is nearer to the end than `s`. */
  ghost predicate Nearer(input: Input, s: State, s': State)
    requires |s.workers| == |s'.workers| == 1
  {
    var a, b := StepsLeft(input, s), StepsLeft(input, s');
    || b < a
    || (b == a && Waits(s') < Waits(s))
    || (b == a && Waits(s') == Waits(s) && WorkLeft(input, s') < WorkLeft(input, s))
    || (b == a && Waits(s') == Waits(s) && WorkLeft(input, s') == WorkLeft(input, s) && PlacesLeft(s') < PlacesLeft(s))
  }

  lemma ProducedNearer(input: Input, s: State)
    requires |s.workers| == 1 && ProducerOk(input, s) && !Blocked(s) && !ProducerDone(input, s)
    ensures |Produced(input, s).workers| == 1 && Nearer(input, s, Produced(input, s))
  {
  }

  /** A copy touches the counter of the latest chunk, which it bumps when the worker has not got it. */
  lemma CopyOfLast(input: Input, s: State, i: nat)
    requires Inv(input, s) && i < |s.workers| && s.list != []
    ensures var last, last' := s.list[|s.list| - 1], Copy(s.list, End(s.workers[i])).0[|s.list| - 1];
            last' == last.(copySync := last.copySync + if last.offset >= End(s.workers[i]) then 1 else 0)
  {
    assert Boundary(s.list, s.popped, Ends(s.workers)[i]);
    CopyBumps(s.list, Stream(input), s.popped, s.pushed, End(s.workers[i]), |s.list| - 1);
  }

  lemma CopyNearer(input: Input, s: State)
    requires Inv(input, s) && Calm(s) && s.workers[0].pc.Extend? && !Reaches(s.workers[0], Current(input, s.workers[0]))
    requires AtEntry(input, s.workers[0]) && (s.lEnd || MustWait(s))
    ensures Nearer(input, s, Stepped(input, s, 0))
  {
    var w, s' := s.workers[0], Stepped(input, s, 0);
    if s.list != [] {
      CopyOfLast(input, s, 0);
    }
    if MustWait(s) {
      FreshIsNew(input, s, 0);
    }
    hide Inv;
  }

  lemma SteppedNearer(input: Input, s: State)
    requires Inv(input, s) && Calm(s) && (s.workers[0].pc.Outside? ==> s.nextWork < |input.work|)
    requires s.workers[0].pc.Extend? ==> s.lEnd || MustWait(s)
    ensures |Stepped(input, s, 0).workers| == 1 && Nearer(input, s, Stepped(input, s, 0))
  {
    WorkersOk(input, s, 0);
    var w := s.workers[0];
    if w.pc.Extend? && !Reaches(w, Current(input, w)) {
      CopyNearer(input, s);
    } else {
      hide Inv, Copy, MustWait, IsMerged;
    }
  }

  lemma SteppedCalm(input: Input, s: State)
    requires Inv(input, s) && Calm(s) && InBounds(input) && OffsetsOk(input, s) && SortedWork(input.work)
    requires WorkerStep(input, s, Stepped(input, s, 0), 0)
    ensures Calm(Stepped(input, s, 0))
  {
    WorkersOk(input, s, 0);
    var w, s' := s.workers[0], Stepped(input, s, 0);
    OffsetsKept(input, s, s');
    assert OffsetOk(input, s', s'.workers[0]);
    hide Inv, Copy, HasNew, AllMerged, OffsetsOk, SortedWork, Next;
    if w.pc.Check? && s.lEnd {
      assert Reaches(w, Current(input, w));
    }
  }

  lemma ChosenNext(input: Input, s: State)
    requires Inv(input, s) && Dealt(input, s) && OffsetsOk(input, s) && SortedWork(input.work) && InBounds(input)
    requires Calm(s) && !Finished(input, s)
    ensures Next(input, s, Chosen(input, s))
    ensures Calm(Chosen(input, s)) && Nearer(input, s, Chosen(input, s))
  {
    var w := s.workers[0];
    InvFacts(input, s);
    WorkersOk(input, s, 0);
    hide Inv, Dealt, WorkerStep, Stepped, WorkerOk, ProducerOk, OffsetsOk, SortedWork, InBounds, Nearer;
    if !w.pc.Check? && !Blocked(s) && !ProducerDone(input, s) {
      ProducerSteps(input, s);
      ProducedNearer(input, s);
    } else if !w.pc.Outside? || s.nextWork < |input.work| {
      if MustWait(s) {
        FreshIsNew(input, s, 0);
      }
      WorkerSteps(input, s, 0);
      SteppedCalm(input, s);
      SteppedNearer(input, s);
    } else {
      ReadEndNearer(input, s);
    }
  }

  lemma ReadEndNearer(input: Input, s: State)
    requires |s.workers| == 1 && !s.rEnd
    ensures Nearer(input, s, s.(rEnd := true))
  {
  }

  lemma NothingNegative(input: Input, s: State)
    requires Inv(input, s) && Calm(s)
    ensures StepsLeft(input, s) >= 0 && WorkLeft(input, s) >= 0
  {
    WorkersOk(input, s, 0);
  }

  function Last(run: seq<State>): State
    requires |run| > 0
  {
    run[|run| - 1]
  }

  lemma RunGrows(input: Input, run: seq<State>, s: State)
    requires Run(input, run) && Next(input, Last(run), s)
    ensures Run(input, run + [s]) && Last(run + [s]) == s
  {
    hide Next, Init;
  }

  lemma {:induction false} ScheduleFrom(input: Input, run: seq<State>) returns (whole: seq<State>)
    requires Run(input, run) && Calm(Last(run)) && SortedWork(input.work) && InBounds(input)
    ensures Run(input, whole) && Finished(input, Last(whole))
    decreases StepsLeft(input, Last(run)), Waits(Last(run)), WorkLeft(input, Last(run)), PlacesLeft(Last(run))
  {
    var s := Last(run);
    RunKeeps(input, run, |run| - 1);
    RunDeals(input, run, |run| - 1);
    RunKeepsOffsets(input, run, |run| - 1);
    NothingNegative(input, s);
    hide Inv, Dealt, OffsetsOk, SortedWork, InBounds, Run, Chosen, StepsLeft, WorkLeft, PlacesLeft, Waits;
    if Finished(input, s) {
      whole := run;
    } else {
      ChosenNext(input, s);
      RunGrows(input, run, Chosen(input, s));
      whole := ScheduleFrom(input, run + [Chosen(input, s)]);
    }
  }

  /** What a run of the merge stage amounts to when nobody throws. */
  ghost predicate Completes(input: Input, run: seq<State>) {
    Run(input, run) && Finished(input, Last(run))
  }

  /** For R sorted by position and within L some run goes through to the end. */
  lemma SomeRunCompletes(input: Input) returns (run: seq<State>)
    requires SortedWork(input.work) && InBounds(input)
    ensures Completes(input, run)
  {
    var s := State(0, 0, None, [], false, false, [Worker(0, [], Outside, 0, 0, 0, [], 0)], 0, 0, 0, map[]);
    run := ScheduleFrom(input, [s]);
  }
}
