/** The ordered pool gets on: a step is possible until every result is out, every step but a spurious
    wake-up uses up work that was there from the start, and so every run can be brought to its end. */
module PoolProgress {
  import opened Wrappers
  import opened ThreadPool

  /** A step of the submitter or of a worker, and no spurious wake-up. */
  ghost predicate Works<T(!new), S(!new)>(f: T -> S, inputs: seq<T>, s: State<S>, s': State<S>) {
    || (|s.workers| > 0 && s.next < |inputs| && SubmitterStep(s, s'))
    || exists w: nat :: w < |s.workers| && WorkerStep(f, inputs, s, s', w)
  }

  /** Everything has been submitted, and all workers are idle. */
  ghost predicate Done<T(!new), S(!new)>(inputs: seq<T>, s: State<S>) {
    s.next == |inputs| && s.submitter == Outside && forall w :: 0 <= w < |s.workers| ==> IsIdle(s.workers[w])
  }

  function Results<T, S>(f: T -> S, inputs: seq<T>): (r: seq<S>)
    ensures |r| == |inputs|
  {
    seq(|inputs|, i requires 0 <= i < |inputs| => f(inputs[i]))
  }

  lemma DoneMeansAllOut<T(!new), S(!new)>(f: T -> S, inputs: seq<T>, s: State<S>)
    requires Inv(f, inputs, s) && Done(inputs, s)
    ensures s.emitted == Results(f, inputs)
  {
    var w := Turn(|s.emitted|, |s.workers|);
    assert IsIdle(s.workers[w]);
  }

  // ----- the next step

  /** What worker w does next. */
  function Stepped<T, S>(f: T -> S, inputs: seq<T>, s: State<S>, w: nat): State<S>
    requires w < |s.workers|
  {
    var worker := s.workers[w];
    match worker.pc
    case Idle => if worker.slot.Some? then With(s, w, worker.(slot := None, pc := Taken(worker.slot.value))) else s
    case Taken(n) => if worker.job.Some? then With(s, w, worker.(pc := Executing(n, worker.job.value))) else s
    case Executing(n, job) => if n < |inputs| then With(s, w, worker.(pc := Gate(n, job, f(inputs[n]), false))) else s
    case Gate(n, job, out, asleep) =>
      if GateOpen(s.workers[Prev(w, |s.workers|)], job) then With(s, w, worker.(pc := Emitting(n, job, out)))
      else With(s, w, worker.(pc := Gate(n, job, out, true)))
    case Emitting(n, job, out) => With(s, w, worker.(pc := Emitted(n))).(emitted := s.emitted + [out])
    case Emitted(n) => With(s, w, worker.(job := None, pc := Cleared(n)))
    case Cleared(n) => With(NotifyNext(s, w), w, NotifyNext(s, w).workers[w].(pc := Idle))
  }

  /** Neither idle nor asleep. */
  predicate Awake<S>(worker: Worker<S>) {
    !IsIdle(worker) && !(worker.pc.Gate? && worker.pc.asleep)
  }

  lemma AwakeSteps<T(!new), S(!new)>(f: T -> S, inputs: seq<T>, s: State<S>, w: nat)
    requires Inv(f, inputs, s) && w < |s.workers| && Awake(s.workers[w])
    ensures WorkerStep(f, inputs, s, Stepped(f, inputs, s, w), w) && Works(f, inputs, s, Stepped(f, inputs, s, w))
  {
    assert Facts(f, inputs, s, w);
    hide Inv, Facts, LinkOk, NotifyNext, Turn, Prev, GateOpen;
  }

  /** Somebody is awake while results are outstanding: the worker whose turn it is, or the one before it. */
  lemma SomebodyAwake<T(!new), S(!new)>(f: T -> S, inputs: seq<T>, s: State<S>) returns (w: nat)
    requires Inv(f, inputs, s) && |s.emitted| < s.next
    ensures w < |s.workers| && Awake(s.workers[w])
  {
    var v := Turn(|s.emitted|, |s.workers|);
    var p := Prev(v, |s.workers|);
    assert Facts(f, inputs, s, v) && Facts(f, inputs, s, p);
    w := if Awake(s.workers[v]) then v else p;
    hide Turn, Prev;
  }

  /** The submitter's next step, when the worker whose turn it is is idle. */
  function Submitted<S>(s: State<S>): State<S>
    requires |s.workers| > 0
  {
    var w := Turn(s.next, |s.workers|);
    var worker := s.workers[w];
    match s.submitter
    case Outside => s.(submitter := Waited)
    case Waited => With(s, w, worker.(job := Some(s.next))).(submitter := JobSet)
    case JobSet => With(s, w, worker.(slot := Some(s.next))).(submitter := Outside, next := s.next + 1)
  }

  /** Until everything is done somebody has a step that is more than waking up for nothing. */
  lemma StepExists<T(!new), S(!new)>(f: T -> S, inputs: seq<T>, s: State<S>) returns (s': State<S>)
    requires Inv(f, inputs, s) && !Done(inputs, s)
    ensures Works(f, inputs, s, s')
  {
    hide Facts, AllHeld, InOrder, WorkerStep, Stepped, Turn;
    if |s.emitted| < s.next {
      var w := SomebodyAwake(f, inputs, s);
      AwakeSteps(f, inputs, s, w);
      s' := Stepped(f, inputs, s, w);
    } else if w: nat :| w < |s.workers| && !IsIdle(s.workers[w]) {
      NothingHeld(f, inputs, s, w);
      AwakeSteps(f, inputs, s, w);
      s' := Stepped(f, inputs, s, w);
    } else {
      s' := Submitted(s);
    }
  }

  lemma NothingHeld<T(!new), S(!new)>(f: T -> S, inputs: seq<T>, s: State<S>, w: nat)
    requires Inv(f, inputs, s) && |s.emitted| == s.next && w < |s.workers|
    ensures !s.workers[w].pc.Gate?
  {
    assert Facts(f, inputs, s, w);
  }

  // ----- the work that is left

  /** The steps that worker has before it, one more when it may have to go to sleep again. */
  function StepsOf<S>(worker: Worker<S>): nat {
    if worker.slot.Some? then 9
    else match worker.pc
      case Idle => 0
      case Taken(_) => 8
      case Executing(_, _) => 7
      case Gate(_, _, _, asleep) => if asleep then 5 else 6
      case Emitting(_, _, _) => 4
      case Emitted(_) => 3
      case Cleared(_) => 2
  }

  function StepsOfAll<S>(workers: seq<Worker<S>>): nat {
    if workers == [] then 0 else StepsOfAll(workers[..|workers| - 1]) + StepsOf(workers[|workers| - 1])
  }

  lemma {:induction false} StepsUpdate<S>(workers: seq<Worker<S>>, w: nat, worker: Worker<S>)
    requires w < |workers|
    ensures StepsOfAll(workers[w := worker]) + StepsOf(workers[w]) == StepsOfAll(workers) + StepsOf(worker)
  {
    var last := |workers| - 1;
    if w < last {
      StepsUpdate(workers[..last], w, worker);
      assert workers[w := worker][..last] == workers[..last][w := worker];
    } else {
      assert workers[w := worker][..last] == workers[..last];
    }
  }

  /** Twelve steps for every input that has not been submitted, less those of the submitter. */
  function StepsLeft<T, S>(inputs: seq<T>, s: State<S>): int {
    12 * (|inputs| - s.next) + StepsOfAll(s.workers)
    - match s.submitter { case Outside => 0 case Waited => 1 case JobSet => 2 }
  }

  /** A notification reaches the next worker in the ring, and wakes it if it sleeps. */
  lemma NotifiesOne<S>(s: State<S>, w: nat) returns (i: nat)
    requires w < |s.workers|
    ensures i < |s.workers|
    ensures var worker := s.workers[i];
            NotifyNext(s, w).workers == s.workers[i :=
              if worker.pc.Gate? then worker.(pc := worker.pc.(asleep := false)) else worker]
  {
    var size := |s.workers|;
    i := if w + 1 < size then w + 1 else 0;
    forall v: nat | v < size
      ensures Prev(v, size) == w <==> v == i
    {
      PrevOf(v, size);
    }
    hide Prev;
  }

  lemma PrevOf(v: nat, size: nat)
    requires v < size
    ensures Prev(v, size) == if v == 0 then size - 1 else v - 1
  {
    if v > 0 {
      assert v + size - 1 == 1 * size + (v - 1);
      assert (v + size - 1) % size == v - 1;
    }
  }

  lemma ClearedWorks<S>(s: State<S>, w: nat)
    requires w < |s.workers| && s.workers[w].pc.Cleared? && s.workers[w].slot.None?
    ensures var after := NotifyNext(s, w).workers[w := NotifyNext(s, w).workers[w].(pc := Idle)];
            StepsOfAll(after) < StepsOfAll(s.workers)
  {
    var i := NotifiesOne(s, w);
    var woken := NotifyNext(s, w).workers;
    hide NotifyNext, StepsOfAll;
    StepsUpdate(s.workers, i, woken[i]);
    StepsUpdate(woken, w, woken[w].(pc := Idle));
  }

  /** Every step but a spurious wake-up leaves less to do. */
  lemma WorksUsesUp<T(!new), S(!new)>(f: T -> S, inputs: seq<T>, s: State<S>, s': State<S>)
    requires Inv(f, inputs, s) && Works(f, inputs, s, s')
    ensures StepsLeft(inputs, s') < StepsLeft(inputs, s)
  {
    if |s.workers| > 0 && s.next < |inputs| && SubmitterStep(s, s') {
      SubmitUsesUp(f, inputs, s, s');
    } else {
      var w: nat :| w < |s.workers| && WorkerStep(f, inputs, s, s', w);
      WorkerUsesUp(f, inputs, s, s', w);
    }
  }

  lemma SubmitUsesUp<T(!new), S(!new)>(f: T -> S, inputs: seq<T>, s: State<S>, s': State<S>)
    requires Inv(f, inputs, s) && s.next < |inputs| && SubmitterStep(s, s')
    ensures StepsLeft(inputs, s') < StepsLeft(inputs, s)
  {
    hide Turn, Workers, AllHeld, InOrder, StepsOfAll;
    var w := Turn(s.next, |s.workers|);
    StepsUpdate(s.workers, w, s'.workers[w]);
  }

  lemma WorkerUsesUp<T(!new), S(!new)>(f: T -> S, inputs: seq<T>, s: State<S>, s': State<S>, w: nat)
    requires Inv(f, inputs, s) && w < |s.workers| && WorkerStep(f, inputs, s, s', w)
    ensures StepsLeft(inputs, s') < StepsLeft(inputs, s)
  {
    assert Facts(f, inputs, s, w);
    hide Inv, Facts, LinkOk, NotifyNext, Turn, Prev, GateOpen, StepsOfAll;
    if s.workers[w].pc.Cleared? {
      ClearedWorks(s, w);
    } else {
      StepsUpdate(s.workers, w, s'.workers[w]);
    }
  }

  lemma NothingNegative<T(!new), S(!new)>(f: T -> S, inputs: seq<T>, s: State<S>)
    requires Inv(f, inputs, s)
    ensures StepsLeft(inputs, s) >= 0
  {
    hide Workers, AllHeld, InOrder, Turn;
  }

  lemma {:induction false} NothingToDo<S>(workers: seq<Worker<S>>)
    requires forall w :: 0 <= w < |workers| ==> workers[w] == Worker(None, None, Idle)
    ensures StepsOfAll(workers) == 0
  {
    if workers != [] {
      NothingToDo(workers[..|workers| - 1]);
    }
  }

  // ----- whole runs

  ghost predicate NoSpurious<T(!new), S(!new)>(f: T -> S, inputs: seq<T>, run: seq<State<S>>) {
    forall i :: 0 <= i < |run| - 1 ==> Works(f, inputs, run[i], run[i + 1])
  }

  function Last<S>(run: seq<State<S>>): State<S>
    requires |run| > 0
  {
    run[|run| - 1]
  }

  /** In every run, until every result is out and every worker idle, some step of the submitter or of a worker
      leads to another state. */
  lemma NeverStuck<T(!new), S(!new)>(f: T -> S, inputs: seq<T>, run: seq<State<S>>, k: nat) returns (s': State<S>)
    requires Run(f, inputs, run) && k < |run| && !Done(inputs, run[k])
    ensures Works(f, inputs, run[k], s') && s' != run[k]
  {
    RunKeeps(f, inputs, run, k);
    s' := StepExists(f, inputs, run[k]);
    WorksUsesUp(f, inputs, run[k], s');
  }

  /** While results are outstanding it is a worker that can step. */
  lemma OutstandingMoves<T(!new), S(!new)>(f: T -> S, inputs: seq<T>, run: seq<State<S>>, k: nat)
    returns (s': State<S>, w: nat)
    requires Run(f, inputs, run) && k < |run| && |run[k].emitted| < run[k].next
    ensures w < |run[k].workers| && WorkerStep(f, inputs, run[k], s', w) && s' != run[k]
  {
    RunKeeps(f, inputs, run, k);
    w := SomebodyAwake(f, inputs, run[k]);
    AwakeSteps(f, inputs, run[k], w);
    s' := Stepped(f, inputs, run[k], w);
    WorkerUsesUp(f, inputs, run[k], s', w);
  }

  /** No run without spurious wake-ups is longer than twelve steps for every input, however the steps of the
      workers interleave; and a run that has come to its end has put out the results of all inputs, in order. */
  lemma EveryRunEnds<T(!new), S(!new)>(f: T -> S, inputs: seq<T>, run: seq<State<S>>)
    requires Run(f, inputs, run) && NoSpurious(f, inputs, run)
    ensures |run| - 1 <= 12 * |inputs|
    ensures (forall s' :: !Works(f, inputs, Last(run), s')) ==> Done(inputs, Last(run))
    ensures Done(inputs, Last(run)) ==> Last(run).emitted == Results(f, inputs)
  {
    hide Inv, Works, Next, Done;
    StepsSoFar(f, inputs, run, |run| - 1);
    var s := Last(run);
    RunKeeps(f, inputs, run, |run| - 1);
    NothingNegative(f, inputs, s);
    StartsWith(inputs, run[0]);
    if Done(inputs, s) {
      DoneMeansAllOut(f, inputs, s);
    } else {
      var s' := StepExists(f, inputs, s);
    }
  }

  lemma StartsWith<T, S(!new)>(inputs: seq<T>, s: State<S>)
    requires Init(s)
    ensures StepsLeft(inputs, s) == 12 * |inputs|
  {
    NothingToDo(s.workers);
  }

  lemma {:induction false} StepsSoFar<T(!new), S(!new)>(f: T -> S, inputs: seq<T>, run: seq<State<S>>, k: nat)
    requires Run(f, inputs, run) && NoSpurious(f, inputs, run) && k < |run|
    ensures StepsLeft(inputs, run[k]) + k <= StepsLeft(inputs, run[0])
  {
    hide Inv, Works, Next, StepsLeft;
    if k > 0 {
      StepsSoFar(f, inputs, run, k - 1);
      RunKeeps(f, inputs, run, k - 1);
      assert Works(f, inputs, run[k - 1], run[k]);
      WorksUsesUp(f, inputs, run[k - 1], run[k]);
    }
  }

  lemma RunGrows<T(!new), S(!new)>(f: T -> S, inputs: seq<T>, run: seq<State<S>>, s: State<S>)
    requires Run(f, inputs, run) && Works(f, inputs, Last(run), s)
    ensures Run(f, inputs, run + [s])
  {
    assert Next(f, inputs, Last(run), s);
    hide Next, Init;
  }

  /** Every run, whatever has happened in it, can be continued until every result is out, in order, and every
      worker idle. */
  lemma {:induction false} RunCompletes<T(!new), S(!new)>(f: T -> S, inputs: seq<T>, run: seq<State<S>>)
    returns (whole: seq<State<S>>)
    requires Run(f, inputs, run)
    ensures run <= whole && Run(f, inputs, whole)
    ensures Done(inputs, Last(whole)) && Last(whole).emitted == Results(f, inputs)
    decreases StepsLeft(inputs, Last(run))
  {
    var s := Last(run);
    RunKeeps(f, inputs, run, |run| - 1);
    NothingNegative(f, inputs, s);
    hide Inv, Works, Next, Done, StepsLeft;
    if Done(inputs, s) {
      DoneMeansAllOut(f, inputs, s);
      whole := run;
    } else {
      var s' := StepExists(f, inputs, s);
      WorksUsesUp(f, inputs, s, s');
      RunGrows(f, inputs, run, s');
      whole := RunCompletes(f, inputs, run + [s']);
    }
  }

  /** For all inputs and any number of workers some run puts everything out. */
  lemma SomeRunCompletes<T(!new), S(!new)>(f: T -> S, inputs: seq<T>, size: nat) returns (run: seq<State<S>>)
    requires size >= 1
    ensures Run(f, inputs, run) && |run[0].workers| == size
    ensures Done(inputs, Last(run)) && Last(run).emitted == Results(f, inputs)
  {
    var s := State(seq(size, _ => Worker(None, None, Idle)), 0, Outside, []);
    assert Init(s);
    run := RunCompletes(f, inputs, [s]);
  }
}
