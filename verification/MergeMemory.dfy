/** What the merge stage holds on to: how far the producer runs ahead, what its list still keeps, and what is left
    of a window. */
module MergeMemory {
  import opened MergeBuffer
  import opened MergeProgress

  // ----- the producer is at most one buffer ahead

  ghost predicate SomeEnd(workers: seq<Worker>, x: nat) {
    exists i :: 0 <= i < |workers| && End(workers[i]) >= x
  }

  /** Until R ends, some window reaches the latest buffer, and the end of it once it has been copied. */
  ghost predicate Near(s: State) {
    !s.rEnd && s.list != [] ==>
      && SomeEnd(s.workers, s.list[|s.list| - 1].offset)
      && (s.list[|s.list| - 1].copySync > 0 ==> SomeEnd(s.workers, s.pushed))
  }

  lemma WindowsLie(input: Input, s: State, i: nat)
    requires Inv(input, s) && i < |s.workers|
    ensures s.popped <= End(s.workers[i]) <= s.pushed
  {
    BoundaryRange(s.list, Stream(input), s.popped, s.pushed, Ends(s.workers)[i]);
  }

  lemma PushNears(input: Input, s: State)
    requires Inv(input, s) && Near(s) && s.tmp.Some? && !MustWait(s)
    ensures Near(PushTmp(s))
  {
    WindowsLie(input, s, 0);
    var s' := PushTmp(s);
    assert s'.list[|s'.list| - 1] == s.tmp.value && s.tmp.value.offset == s.pushed && s.tmp.value.copySync == 0;
    if s.list == [] {
      assert s.popped == s.pushed;
    }
  }

  /** A worker whose window ends no earlier. */
  lemma EndGrows(workers: seq<Worker>, workers': seq<Worker>, x: nat)
    requires |workers| == |workers'| && forall i :: 0 <= i < |workers| ==> End(workers[i]) <= End(workers'[i])
    ensures SomeEnd(workers, x) ==> SomeEnd(workers', x)
  {
  }

  lemma {:induction false} CopyKeepsOffsets(list: seq<Buffer>, end: nat)
    ensures forall k :: 0 <= k < |list| ==> Copy(list, end).0[k].offset == list[k].offset
    decreases |list|
  {
    if list != [] {
      CopyKeepsOffsets(list[1..], if list[0].offset >= end then end + |list[0].newPos| else end);
    }
  }

  lemma CopyNears(input: Input, s: State, i: nat)
    requires Inv(input, s) && Near(s) && i < |s.workers|
    ensures var (list, data) := Copy(s.list, End(s.workers[i]));
            var w := s.workers[i].(newPos := s.workers[i].newPos + data);
            End(w) == s.pushed && Near(With(s.(list := list), i, w))
  {
    var (list, data) := Copy(s.list, End(s.workers[i]));
    var w := s.workers[i].(newPos := s.workers[i].newPos + data);
    WindowsLie(input, s, i);
    CopyReachesEnd(s.list, Stream(input), s.popped, s.pushed, Ends(s.workers)[i]);
    CopyKeepsOffsets(s.list, End(s.workers[i]));
    var s' := With(s.(list := list), i, w);
    assert End(s'.workers[i]) == s.pushed;
    EndGrows(s.workers, s'.workers, if s.list == [] then 0 else s.list[|s.list| - 1].offset);
  }

  /** A step that leaves the list and the ends of the windows alone. */
  lemma SameNears(s: State, s': State)
    requires Near(s) && s'.list == s.list && s'.pushed == s.pushed && (s.rEnd ==> s'.rEnd)
    requires |s'.workers| == |s.workers| && forall i :: 0 <= i < |s.workers| ==> End(s'.workers[i]) == End(s.workers[i])
    ensures Near(s')
  {
    if s.list != [] {
      EndGrows(s.workers, s'.workers, s.list[|s.list| - 1].offset);
      EndGrows(s.workers, s'.workers, s.pushed);
    }
  }

  /** Extends its window by what is new in the list. */
  ghost predicate Copies(input: Input, s: State, w: Worker) {
    w.pc.Extend? && AtEntry(input, w) && !Reaches(w, Current(input, w))
  }

  lemma StepEnds(input: Input, s: State, s': State, i: nat)
    requires Inv(input, s) && i < |s.workers| && WorkerStep(input, s, s', i) && !Copies(input, s, s.workers[i])
    ensures s'.list == s.list && s'.pushed == s.pushed && s'.rEnd == s.rEnd && |s'.workers| == |s.workers|
    ensures End(s'.workers[i]) == End(s.workers[i])
    ensures forall j :: 0 <= j < |s.workers| && j != i ==> s'.workers[j] == s.workers[j]
  {
    hide Inv, Copy, HasNew, Finish;
    if s.workers[i].pc == Fetch {
      FinishKeepsEnd(s.workers[i]);
    }
  }

  lemma FinishKeepsEnd(w: Worker)
    ensures End(Finish(w)) == End(w)
  {
  }

  lemma StepCopies(input: Input, s: State, s': State, i: nat)
    requires i < |s.workers| && WorkerStep(input, s, s', i) && Copies(input, s, s.workers[i])
    ensures var (list, data) := Copy(s.list, End(s.workers[i]));
            var w := s.workers[i].(newPos := s.workers[i].newPos + data);
            s' == With(s.(list := list), i, w.(pc := Check(s.lEnd)))
  {
    hide Copy;
  }

  lemma WorkerNears(input: Input, s: State, s': State, i: nat)
    requires Inv(input, s) && Near(s) && i < |s.workers| && WorkerStep(input, s, s', i)
    ensures Near(s')
  {
    hide Inv, WorkerStep, Near, Copy;
    if Copies(input, s, s.workers[i]) {
      StepCopies(input, s, s', i);
      CopyNears(input, s, i);
      var (list, data) := Copy(s.list, End(s.workers[i]));
      var w := s.workers[i].(newPos := s.workers[i].newPos + data);
      SameNears(With(s.(list := list), i, w), s');
    } else {
      StepEnds(input, s, s', i);
      SameNears(s, s');
    }
  }

  lemma StepNears(input: Input, s: State, s': State)
    requires Inv(input, s) && Near(s) && Next(input, s, s')
    ensures Near(s')
  {
    hide Inv, WorkerStep, Near, MustWait;
    if s.tmp.Some? && !MustWait(s) && s' == PushTmp(s) {
      PushNears(input, s);
    } else if exists i: nat :: i < |s.workers| && WorkerStep(input, s, s', i) {
      var i: nat :| i < |s.workers| && WorkerStep(input, s, s', i);
      WorkerNears(input, s, s', i);
    } else {
      SameNears(s, s');
    }
  }

  lemma NothingAhead(input: Input, s: State)
    requires Init(input, s)
    ensures Near(s)
  {
  }

  lemma {:induction false} RunNears(input: Input, run: seq<State>, k: nat)
    requires Run(input, run) && k < |run|
    ensures Near(run[k])
  {
    hide Inv, Next, Near, Init;
    if k == 0 {
      NothingAhead(input, run[0]);
    } else {
      RunNears(input, run, k - 1);
      RunKeeps(input, run, k - 1);
      assert Next(input, run[k - 1], run[k]);
      StepNears(input, run[k - 1], run[k]);
    }
  }

  /** In every run, until R ends, the producer is at most one buffer ahead of the worker that is furthest. */
  lemma OneAhead(input: Input, run: seq<State>, k: nat)
    requires Run(input, run) && k < |run| && !run[k].rEnd && run[k].list != []
    ensures var s := run[k];
            var last := s.list[|s.list| - 1];
            && last.offset + |last.newPos| == s.pushed
            && exists i :: 0 <= i < |s.workers| && last.offset <= End(s.workers[i])
  {
    RunNears(input, run, k);
    RunKeeps(input, run, k);
    LastOfList(run[k].list, Stream(input), run[k].popped, run[k].pushed);
  }

  // ----- the list keeps nothing that all have copied

  lemma {:induction false} SomeNotPast(ends: seq<nat>, x: nat) returns (i: nat)
    requires CountPast(ends, x) < |ends|
    ensures i < |ends| && ends[i] <= x
  {
    if ends[0] <= x {
      i := 0;
    } else {
      i := SomeNotPast(ends[1..], x);
      i := i + 1;
    }
  }

  lemma {:induction false} NotStale(list: seq<Buffer>, workers: nat)
    ensures Stale(list, workers) < |list| ==> list[Stale(list, workers)].copySync < workers
  {
    if list != [] && list[0].copySync >= workers {
      NotStale(list[1..], workers);
    }
  }

  /** When the producer hands out a buffer, what is left of the list starts where some window ends. */
  lemma FrontIsNeeded(input: Input, run: seq<State>, k: nat) returns (i: nat)
    requires Run(input, run) && k < |run| && run[k].tmp.Some?
    ensures var s := PushTmp(run[k]);
            i < |s.workers| && (s.list[0].newPos != [] ==> End(s.workers[i]) == s.popped)
  {
    RunKeeps(input, run, k);
    var s := run[k];
    var n, ends := Stale(s.list, |s.workers|), Ends(s.workers);
    PopKeeps(s.list, Stream(input), s.popped, s.pushed, ends);
    NotStale(s.list, |s.workers|);
    var rest, popped := s.list[n..], s.popped + Length(s.list[..n]);
    if rest == [] || rest[0].newPos == [] {
      i := 0;
    } else {
      i := SomeNotPast(ends, rest[0].offset);
    }
    BoundaryRange(rest, Stream(input), popped, s.pushed, ends[i]);
  }

  // ----- a window is trimmed when its worker leaves a chunk

  /** The position of the latest entry among the first n. */
  function LastOf(entries: seq<Entry>, n: nat): nat
    requires n <= |entries|
  {
    if n == 0 then 0 else entries[n - 1].pos
  }

  /** `last` is the position of the latest entry; past a chunk, what lies before it has left the window. */
  ghost predicate Trimmed(input: Input, w: Worker) {
    && (!w.pc.Outside? ==> w.chunk < |input.work| && w.next <= |input.work[w.chunk]|)
    && match w.pc
       case Outside =>
         w.from > 0 ==> w.chunk < |input.work|
                        && (w.newPos == [] || w.offset >= LastOf(input.work[w.chunk], |input.work[w.chunk]|))
       case Fetch => w.last == LastOf(input.work[w.chunk], w.next)
       case Extend => w.next < |input.work[w.chunk]| && w.last == Current(input, w).pos
       case Check(_) => w.next < |input.work[w.chunk]| && w.last == Current(input, w).pos
       case _ => true
  }

  lemma WorkerTrims(input: Input, s: State, s': State, i: nat)
    requires i < |s.workers| && WorkerStep(input, s, s', i) && Trimmed(input, s.workers[i])
    ensures |s'.workers| == |s.workers| && Trimmed(input, s'.workers[i])
    ensures forall j :: 0 <= j < |s.workers| && j != i ==> s'.workers[j] == s.workers[j]
  {
    hide Finish, Copy, HasNew, Reaches;
    var w := s.workers[i];
    match w.pc
    case Outside =>
    case Fetch =>
      if !AtEntry(input, w) {
        FinishTrims(input, w);
      }
    case Extend =>
    case Check(sawEnd) =>
    case _ =>
  }

  lemma FinishTrims(input: Input, w: Worker)
    requires Trimmed(input, w) && w.pc == Fetch && !AtEntry(input, w)
    ensures Trimmed(input, Finish(w))
  {
  }

  lemma {:induction false} RunTrims(input: Input, run: seq<State>, k: nat, i: nat)
    requires Run(input, run) && k < |run| && i < |run[k].workers|
    ensures Trimmed(input, run[k].workers[i])
  {
    hide Trimmed, WorkerStep;
    if k == 0 {
      NotYetTrimmed(input, run[0], i);
    } else {
      var s, s' := run[k - 1], run[k];
      assert Next(input, s, s');
      if j: nat :| j < |s.workers| && WorkerStep(input, s, s', j) {
        RunTrims(input, run, k - 1, j);
        WorkerTrims(input, s, s', j);
        RunTrims(input, run, k - 1, i);
      } else {
        RunTrims(input, run, k - 1, i);
      }
    }
  }

  lemma NotYetTrimmed(input: Input, s: State, i: nat)
    requires Init(input, s) && i < |s.workers|
    ensures Trimmed(input, s.workers[i])
  {
  }

  /** A worker that has finished a chunk has dropped the part of its window before the position of the chunk's
      last entry. */
  lemma WindowIsTrimmed(input: Input, run: seq<State>, k: nat, i: nat)
    requires Run(input, run) && k < |run| && i < |run[k].workers|
    requires run[k].workers[i].pc.Outside? && run[k].workers[i].from > 0
    ensures var w := run[k].workers[i];
            && w.chunk < |input.work|
            && var entries := input.work[w.chunk];
               entries != [] && w.newPos != [] ==> w.offset >= entries[|entries| - 1].pos
  {
    RunTrims(input, run, k, i);
  }
}
