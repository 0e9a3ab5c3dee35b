/** The ordered thread pool: one submitter deals inputs to the workers in turn, the workers execute
    them side by side and pass a gate that lets results out in the order of submission. Each worker
    is a `Thread`, used through its one-slot handoff: `wait` returns once the worker is idle with an
    empty slot, and `take` then fills the slot. */
module ThreadPool {
  import opened Powers
  import opened Wrappers

  /** Where a worker is in `wrapper`; n is the number of the input it holds, and `job` what it read
      from its job field. */
  datatype Pc<S> =
    | Idle
    | Taken(n: nat)                                       // input in hand, job not yet read
    | Executing(n: nat, job: nat)
    | Gate(n: nat, job: nat, out: S, asleep: bool)        // waits until prev->job >= job
    | Emitting(n: nat, job: nat, out: S)                  // inside output->take
    | Emitted(n: nat)                                     // job field still set
    | Cleared(n: nat)                                     // job field reset, yet to notify

  /** `thread_t`: the job field (`None` for -1), the slot of its thread, and the program counter. */
  datatype Worker<S> = Worker(job: Option<nat>, slot: Option<nat>, pc: Pc<S>)

  /** The submitter in `take`: outside, past `wait`, past setting the job field. */
  datatype Submitter = Outside | Waited | JobSet

  datatype State<S> = State(workers: seq<Worker<S>>, next: nat, submitter: Submitter, emitted: seq<S>)

  predicate IsIdle<S>(w: Worker<S>) {
    w.slot.None? && w.pc.Idle?
  }

  /** The worker whose turn input n is, and the one before a worker in the ring. */
  function Turn(n: nat, size: nat): (w: nat)
    requires size > 0
    ensures w < size
  {
    n % size
  }

  function Prev(w: nat, size: nat): (p: nat)
    requires size > 0
    ensures p < size
  {
    (w + size - 1) % size
  }

  function With<S>(s: State<S>, w: nat, worker: Worker<S>): State<S>
    requires w < |s.workers|
  {
    s.(workers := s.workers[w := worker])
  }

  /** The condition under which the gate opens: prev->job >= job, -1 being the largest value. */
  predicate GateOpen<S>(prev: Worker<S>, job: nat) {
    prev.job.None? || prev.job.value >= job
  }

  /** `state->signal.notify_all()` wakes the one that may wait on it, the next worker in the ring. */
  function NotifyNext<S>(s: State<S>, w: nat): State<S>
    requires w < |s.workers|
  {
    s.(workers := seq(|s.workers|, i requires 0 <= i < |s.workers| =>
      if s.workers[i].pc.Gate? && Prev(i, |s.workers|) == w
      then s.workers[i].(pc := s.workers[i].pc.(asleep := false)) else s.workers[i]))
  }

  ghost predicate SubmitterStep<S(!new)>(s: State<S>, s': State<S>)
    requires |s.workers| > 0
  {
    var w := Turn(s.next, |s.workers|);
    var worker := s.workers[w];
    match s.submitter
    case Outside => IsIdle(worker) && s' == s.(submitter := Waited)
    case Waited => s' == With(s, w, worker.(job := Some(s.next))).(submitter := JobSet)
    case JobSet => s' == With(s, w, worker.(slot := Some(s.next))).(submitter := Outside, next := s.next + 1)
  }

  ghost predicate WorkerStep<T(!new), S(!new)>(f: T -> S, inputs: seq<T>, s: State<S>, s': State<S>, w: nat)
    requires w < |s.workers|
  {
    var worker := s.workers[w];
    match worker.pc
    case Idle => worker.slot.Some? && s' == With(s, w, worker.(slot := None, pc := Taken(worker.slot.value)))
    case Taken(n) => worker.job.Some? && s' == With(s, w, worker.(pc := Executing(n, worker.job.value)))
    case Executing(n, job) => n < |inputs| && s' == With(s, w, worker.(pc := Gate(n, job, f(inputs[n]), false)))
    case Gate(n, job, out, asleep) =>
      !asleep && s' == if GateOpen(s.workers[Prev(w, |s.workers|)], job)
                       then With(s, w, worker.(pc := Emitting(n, job, out)))
                       else With(s, w, worker.(pc := Gate(n, job, out, true)))
    case Emitting(n, job, out) => s' == With(s, w, worker.(pc := Emitted(n))).(emitted := s.emitted + [out])
    case Emitted(n) => s' == With(s, w, worker.(job := None, pc := Cleared(n)))
    case Cleared(n) => s' == With(NotifyNext(s, w), w, NotifyNext(s, w).workers[w].(pc := Idle))
  }

  ghost predicate Init<S(!new)>(s: State<S>) {
    && |s.workers| >= 1 && s.next == 0 && s.submitter == Outside && s.emitted == []
    && forall w :: 0 <= w < |s.workers| ==> s.workers[w] == Worker(None, None, Idle)
  }

  /** A condition variable may let go of a worker at its gate without a notification. */
  ghost predicate Spurious<S(!new)>(s: State<S>, s': State<S>, w: nat)
    requires w < |s.workers|
  {
    var pc := s.workers[w].pc;
    pc.Gate? && pc.asleep && s' == With(s, w, s.workers[w].(pc := pc.(asleep := false)))
  }

  ghost predicate Next<T(!new), S(!new)>(f: T -> S, inputs: seq<T>, s: State<S>, s': State<S>) {
    || (|s.workers| > 0 && s.next < |inputs| && SubmitterStep(s, s'))
    || exists w: nat :: w < |s.workers| && (WorkerStep(f, inputs, s, s', w) || Spurious(s, s', w))
  }

  /** No proof may count on a sleeper staying asleep: waking up is a step of every state. */
  lemma AnySleeperWakes<T(!new), S(!new)>(f: T -> S, inputs: seq<T>, s: State<S>, w: nat)
    requires w < |s.workers| && s.workers[w].pc.Gate? && s.workers[w].pc.asleep
    ensures var pc := s.workers[w].pc;
            Next(f, inputs, s, s.(workers := s.workers[w := s.workers[w].(pc := Gate(pc.n, pc.job, pc.out, false))]))
  {
    assert Spurious(s, With(s, w, s.workers[w].(pc := s.workers[w].pc.(asleep := false))), w);
  }

  ghost predicate Run<T(!new), S(!new)>(f: T -> S, inputs: seq<T>, run: seq<State<S>>) {
    && |run| > 0 && Init(run[0])
    && forall i :: 0 <= i < |run| - 1 ==> Next(f, inputs, run[i], run[i + 1])
  }

  // ----- the invariant

  /** The input a worker holds and has not yet given out. */
  function Held<S>(w: Worker<S>): Option<nat> {
    if w.slot.Some? then w.slot
    else match w.pc
      case Taken(n) => Some(n)
      case Executing(n, _) => Some(n)
      case Gate(n, _, _, _) => Some(n)
      case Emitting(n, _, _) => Some(n)
      case _ => None
  }

  /** What a worker's fields say about the input it holds, when `emitted` results are out and inputs
      below `next` have been submitted. */
  ghost predicate WorkerOk<T(!new), S(!new)>(f: T -> S, inputs: seq<T>, worker: Worker<S>, w: nat, size: nat,
                                            emitted: nat, next: nat, jobSet: bool)
    requires size > 0
  {
    && (worker.slot.Some? ==> worker.pc.Idle?)
    && (Held(worker).Some? ==>
          var n := Held(worker).value;
          emitted <= n < next && Turn(n, size) == w && worker.job == Some(n))
    && (worker.pc.Emitted? ==> worker.pc.n + 1 == emitted && Turn(worker.pc.n, size) == w && worker.job == Some(worker.pc.n))
    && (worker.pc.Cleared? ==> worker.job == None)
    && (worker.pc.Executing? ==> worker.pc.job == worker.pc.n)
    && (worker.pc.Gate? || worker.pc.Emitting? ==>
          worker.pc.job == worker.pc.n < |inputs| && worker.pc.out == f(inputs[worker.pc.n]))
    && (worker.pc.Emitting? ==> worker.pc.n == emitted)
    && (IsIdle(worker) ==> worker.job == if jobSet then Some(next) else None)
  }

  /** How a worker stands to the one before it: inside output->take only past an open gate, and asleep
      at the gate only if it has to wait or is about to be woken. */
  predicate LinkOk<S>(worker: Worker<S>, prev: Worker<S>) {
    && (worker.pc.Emitting? ==> GateOpen(prev, worker.pc.n))
    && (worker.pc.Gate? && worker.pc.asleep ==> !GateOpen(prev, worker.pc.job) || prev.pc.Cleared?)
  }

  predicate JobSetFor<S>(s: State<S>, w: nat)
    requires |s.workers| > 0
  {
    s.submitter.JobSet? && Turn(s.next, |s.workers|) == w
  }

  ghost predicate Facts<T(!new), S(!new)>(f: T -> S, inputs: seq<T>, s: State<S>, w: nat)
    requires w < |s.workers|
  {
    && WorkerOk(f, inputs, s.workers[w], w, |s.workers|, |s.emitted|, s.next, JobSetFor(s, w))
    && LinkOk(s.workers[w], s.workers[Prev(w, |s.workers|)])
  }

  ghost predicate Workers<T(!new), S(!new)>(f: T -> S, inputs: seq<T>, s: State<S>) {
    |s.workers| > 0 && forall w: nat :: w < |s.workers| ==> Facts(f, inputs, s, w)
  }

  /** Every input submitted and not yet given out is held by the worker whose turn it is. */
  ghost predicate AllHeld<S(!new)>(s: State<S>)
    requires |s.workers| > 0
  {
    forall n: nat {:trigger Turn(n, |s.workers|)} :: |s.emitted| <= n < s.next ==>
      Held(s.workers[Turn(n, |s.workers|)]) == Some(n)
  }

  /** The results so far are those of the first inputs, in the order of submission. */
  ghost predicate InOrder<T(!new), S(!new)>(f: T -> S, inputs: seq<T>, emitted: seq<S>) {
    |emitted| <= |inputs| && forall i :: 0 <= i < |emitted| ==> emitted[i] == f(inputs[i])
  }

  ghost predicate Inv<T(!new), S(!new)>(f: T -> S, inputs: seq<T>, s: State<S>) {
    && Workers(f, inputs, s) && AllHeld(s) && InOrder(f, inputs, s.emitted)
    && |s.emitted| <= s.next <= |inputs|
    && (s.submitter != Outside ==> IsIdle(s.workers[Turn(s.next, |s.workers|)]) && s.next < |inputs|)
  }

  // ----- the ring

  lemma PrevTurn(n: nat, size: nat)
    requires n >= 1 && size > 0
    ensures Turn(n - 1, size) == Prev(Turn(n, size), size)
  {
    var q, r := n / size, n % size;
    assert n == q * size + r;
    if r == 0 {
      DivModUnique(n - 1, q - 1, size - 1, size);
    } else {
      DivModUnique(n - 1, q, r - 1, size);
      DivModUnique(r + size - 1, 1, r - 1, size);
    }
  }

  /** While a lower input is outstanding the gate is closed. */
  lemma ClosedForOthers<T(!new), S(!new)>(f: T -> S, inputs: seq<T>, s: State<S>, w: nat)
    requires Inv(f, inputs, s) && w < |s.workers| && s.workers[w].pc.Gate?
    ensures s.workers[w].pc.n >= |s.emitted|
    ensures s.workers[w].pc.n > |s.emitted| ==> !GateOpen(s.workers[Prev(w, |s.workers|)], s.workers[w].pc.job)
  {
    assert Facts(f, inputs, s, w);
    var n := s.workers[w].pc.n;
    if n > |s.emitted| {
      PrevTurn(n, |s.workers|);
      var p: nat := Turn(n - 1, |s.workers|);
      assert Held(s.workers[p]) == Some((n - 1) as nat);
      assert Facts(f, inputs, s, p);
    }
  }

  lemma OneInOutput<T(!new), S(!new)>(f: T -> S, inputs: seq<T>, s: State<S>, w: nat, v: nat)
    requires Inv(f, inputs, s) && w < |s.workers| && v < |s.workers|
    requires s.workers[w].pc.Emitting?
    ensures !s.workers[v].pc.Emitted?
    ensures v != w && Held(s.workers[v]).Some? ==> Held(s.workers[v]).value > |s.emitted|
  {
    assert Facts(f, inputs, s, w) && Facts(f, inputs, s, v);
    if s.workers[v].pc.Emitted? {
      PrevTurn(|s.emitted|, |s.workers|);
    }
  }

  // ----- one step at a time

  /** A step of worker w that touches neither its job field nor what it holds. */
  lemma LocalStep<T(!new), S(!new)>(f: T -> S, inputs: seq<T>, s: State<S>, w: nat, worker: Worker<S>)
    requires Inv(f, inputs, s) && w < |s.workers|
    requires Held(worker) == Held(s.workers[w]) != None && worker.job == s.workers[w].job
    requires !s.workers[w].pc.Cleared?
    requires WorkerOk(f, inputs, worker, w, |s.workers|, |s.emitted|, s.next, JobSetFor(s, w))
    requires var p := Prev(w, |s.workers|); LinkOk(worker, if p == w then worker else s.workers[p])
    ensures Inv(f, inputs, With(s, w, worker))
  {
    hide Turn, Prev, WorkerOk, InOrder;
    var s' := With(s, w, worker);
    forall v: nat | v < |s.workers|
      ensures Facts(f, inputs, s', v)
    {
      assert Facts(f, inputs, s, v);
      assert JobSetFor(s, v) == JobSetFor(s', v);
    }
    assert Facts(f, inputs, s, w);
  }

  lemma SubmitterKeeps<T(!new), S(!new)>(f: T -> S, inputs: seq<T>, s: State<S>, s': State<S>)
    requires Inv(f, inputs, s) && s.next < |inputs| && SubmitterStep(s, s')
    ensures Inv(f, inputs, s')
  {
    hide Turn, Prev, InOrder;
    forall v: nat | v < |s.workers|
      ensures Facts(f, inputs, s', v)
    {
      assert Facts(f, inputs, s, v) && Facts(f, inputs, s, Prev(v, |s.workers|));
    }
  }

  lemma EmitKeeps<T(!new), S(!new)>(f: T -> S, inputs: seq<T>, s: State<S>, w: nat)
    requires Inv(f, inputs, s) && w < |s.workers| && s.workers[w].pc.Emitting?
    ensures Inv(f, inputs, With(s, w, s.workers[w].(pc := Emitted(s.workers[w].pc.n))).(emitted := s.emitted + [s.workers[w].pc.out]))
  {
    hide Turn, Prev;
    var s' := With(s, w, s.workers[w].(pc := Emitted(s.workers[w].pc.n))).(emitted := s.emitted + [s.workers[w].pc.out]);
    assert Facts(f, inputs, s, w);
    forall v: nat | v < |s.workers|
      ensures Facts(f, inputs, s', v)
    {
      assert Facts(f, inputs, s, v);
      OneInOutput(f, inputs, s, w, v);
      assert JobSetFor(s, v) == JobSetFor(s', v);
    }
  }

  lemma ClearKeeps<T(!new), S(!new)>(f: T -> S, inputs: seq<T>, s: State<S>, w: nat)
    requires Inv(f, inputs, s) && w < |s.workers| && s.workers[w].pc.Emitted?
    ensures Inv(f, inputs, With(s, w, s.workers[w].(job := None, pc := Cleared(s.workers[w].pc.n))))
  {
    hide Turn, Prev, InOrder;
    var s' := With(s, w, s.workers[w].(job := None, pc := Cleared(s.workers[w].pc.n)));
    assert Facts(f, inputs, s, w);
    forall v: nat | v < |s.workers|
      ensures Facts(f, inputs, s', v)
    {
      assert Facts(f, inputs, s, v);
      assert JobSetFor(s, v) == JobSetFor(s', v);
    }
  }

  lemma NotifyKeeps<T(!new), S(!new)>(f: T -> S, inputs: seq<T>, s: State<S>, w: nat)
    requires Inv(f, inputs, s) && w < |s.workers| && s.workers[w].pc.Cleared?
    ensures Inv(f, inputs, With(NotifyNext(s, w), w, NotifyNext(s, w).workers[w].(pc := Idle)))
  {
    hide Turn, Prev, InOrder;
    var s' := With(NotifyNext(s, w), w, NotifyNext(s, w).workers[w].(pc := Idle));
    assert Facts(f, inputs, s, w);
    forall v: nat | v < |s.workers|
      ensures Facts(f, inputs, s', v)
    {
      assert Facts(f, inputs, s, v);
      assert JobSetFor(s, v) == JobSetFor(s', v);
    }
  }

  lemma WorkerKeeps<T(!new), S(!new)>(f: T -> S, inputs: seq<T>, s: State<S>, s': State<S>, w: nat)
    requires Inv(f, inputs, s) && w < |s.workers| && WorkerStep(f, inputs, s, s', w)
    ensures Inv(f, inputs, s')
  {
    assert Facts(f, inputs, s, w);
    hide Inv, Turn, NotifyNext;
    var worker := s.workers[w];
    match worker.pc
    case Idle => LocalStep(f, inputs, s, w, worker.(slot := None, pc := Taken(worker.slot.value)));
    case Taken(n) => LocalStep(f, inputs, s, w, worker.(pc := Executing(n, worker.job.value)));
    case Executing(n, job) => LocalStep(f, inputs, s, w, worker.(pc := Gate(n, job, f(inputs[n]), false)));
    case Gate(n, job, out, asleep) =>
      ClosedForOthers(f, inputs, s, w);
      if GateOpen(s.workers[Prev(w, |s.workers|)], job) {
        LocalStep(f, inputs, s, w, worker.(pc := Emitting(n, job, out)));
      } else {
        LocalStep(f, inputs, s, w, worker.(pc := Gate(n, job, out, true)));
      }
    case Emitting(n, job, out) => EmitKeeps(f, inputs, s, w);
    case Emitted(n) => ClearKeeps(f, inputs, s, w);
    case Cleared(n) => NotifyKeeps(f, inputs, s, w);
  }

  lemma SpuriousKeeps<T(!new), S(!new)>(f: T -> S, inputs: seq<T>, s: State<S>, s': State<S>, w: nat)
    requires Inv(f, inputs, s) && w < |s.workers| && Spurious(s, s', w)
    ensures Inv(f, inputs, s')
  {
    assert Facts(f, inputs, s, w);
    LocalStep(f, inputs, s, w, s.workers[w].(pc := s.workers[w].pc.(asleep := false)));
  }

  lemma InitInv<T(!new), S(!new)>(f: T -> S, inputs: seq<T>, s: State<S>)
    requires Init(s)
    ensures Inv(f, inputs, s)
  {
  }

  lemma {:induction false} RunKeeps<T(!new), S(!new)>(f: T -> S, inputs: seq<T>, run: seq<State<S>>, k: nat)
    requires Run(f, inputs, run) && k < |run|
    ensures Inv(f, inputs, run[k])
  {
    hide Inv, SubmitterStep, WorkerStep, Spurious;
    if k == 0 {
      InitInv(f, inputs, run[0]);
    } else {
      RunKeeps(f, inputs, run, k - 1);
      var s, s' := run[k - 1], run[k];
      assert Next(f, inputs, s, s');
      if |s.workers| > 0 && s.next < |inputs| && SubmitterStep(s, s') {
        SubmitterKeeps(f, inputs, s, s');
      } else {
        var w: nat :| w < |s.workers| && (WorkerStep(f, inputs, s, s', w) || Spurious(s, s', w));
        if WorkerStep(f, inputs, s, s', w) {
          WorkerKeeps(f, inputs, s, s', w);
        } else {
          SpuriousKeeps(f, inputs, s, s', w);
        }
      }
    }
  }

  // ----- what holds in every run

  /** In every interleaving, for any number of workers, the results given out are those of the
      inputs, in the order of submission and each once, and at most one worker is giving one out. */
  lemma OrderedEmission<T(!new), S(!new)>(f: T -> S, inputs: seq<T>, run: seq<State<S>>, k: nat)
    requires Run(f, inputs, run) && k < |run|
    ensures var s := run[k];
            && |s.emitted| <= s.next <= |inputs|
            && (forall i :: 0 <= i < |s.emitted| ==> s.emitted[i] == f(inputs[i]))
            && (forall v, w :: 0 <= v < w < |s.workers| ==> !(s.workers[v].pc.Emitting? && s.workers[w].pc.Emitting?))
  {
    RunKeeps(f, inputs, run, k);
    var s := run[k];
    forall v: nat, w: nat | v < w < |s.workers|
      ensures !(s.workers[v].pc.Emitting? && s.workers[w].pc.Emitting?)
    {
      assert Facts(f, inputs, s, v) && Facts(f, inputs, s, w);
    }
  }

  /** Once every worker is idle, as `wait` and `close` ask, everything submitted has been given out. */
  lemma IdleMeansAllOut<T(!new), S(!new)>(f: T -> S, inputs: seq<T>, run: seq<State<S>>, k: nat)
    requires Run(f, inputs, run) && k < |run|
    ensures (forall w :: 0 <= w < |run[k].workers| ==> IsIdle(run[k].workers[w])) ==> |run[k].emitted| == run[k].next
  {
    RunKeeps(f, inputs, run, k);
    var s := run[k];
    if |s.emitted| < s.next {
      var w: nat := Turn(|s.emitted|, |s.workers|);
      assert Held(s.workers[w]) == Some(|s.emitted|);
      assert !IsIdle(s.workers[w]);
    }
  }

  /** The lowest outstanding input is held by the worker whose turn it is, and that worker is not
      blocked at the gate: if it is there, then the gate is open and it is awake or about to be woken,
      or the worker before it has given its result out and opens the gate with its next step. */
  lemma LowestNeverBlocked<T(!new), S(!new)>(f: T -> S, inputs: seq<T>, run: seq<State<S>>, k: nat)
    requires Run(f, inputs, run) && k < |run| && |run[k].emitted| < run[k].next
    ensures |run[k].workers| > 0
    ensures var s := run[k];
            var w := Turn(|s.emitted|, |s.workers|);
            var worker, prev := s.workers[w], s.workers[Prev(w, |s.workers|)];
            && Held(worker) == Some(|s.emitted|)
            && (worker.pc.Gate? ==>
                  if GateOpen(prev, worker.pc.job) then !worker.pc.asleep || prev.pc.Cleared?
                  else prev.pc.Emitted?)
  {
    RunKeeps(f, inputs, run, k);
    var s := run[k];
    var w := Turn(|s.emitted|, |s.workers|);
    var p := Prev(w, |s.workers|);
    assert Facts(f, inputs, s, w) && Facts(f, inputs, s, p);
  }
}
