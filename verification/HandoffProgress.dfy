/** The handoff gets on: whoever is awake has a step, and every run can be continued, without new calls,
    failures or spurious wake-ups, until nobody is in a call and everything taken in has been executed. */
module HandoffProgress {
  import opened Wrappers
  import opened ThreadHandoff

  // ----- the next step

  /** What an awake worker does next when its execution does not throw. */
  function WorkerStepped<T>(s: State<T>): State<T> {
    match s.worker
    case Head => LoopHead(s)
    case Taken(tmp) => NotifyAll(s).(worker := Running(tmp))
    case Running(tmp) => LoopHead(s.(isBusy := false, executed := s.executed + [tmp]))
    case _ => s
  }

  predicate WorkerAwake<T>(w: Worker<T>) {
    w.Head? || w.Taken? || w.Running?
  }

  lemma WorkerSteps<T(!new)>(s: State<T>)
    requires Handoff(s) && WorkerAwake(s.worker)
    ensures WorkerStep(s, WorkerStepped(s)) && WorkerStepped(s) != s
  {
  }

  /** What an awake caller inside a call does next. */
  function CallerStepped<T>(s: State<T>, c: nat): State<T>
    requires c < |s.callers|
  {
    match s.callers[c].at
    case Outside => s
    case Slot(data) => SlotStep(s, c, data)
    case Pickup => PickupStep(s, c)
    case Waiting(closing) => WaitStep(s, c, closing)
    case Closing => Move(s.(doRun := false), c, Notifying, false)
    case Notifying => Move(NotifyAll(s), c, Outside, false)
  }

  predicate CallerAwake<T>(caller: Caller<T>) {
    !caller.at.Outside? && !caller.asleep
  }

  lemma CallerSteps<T(!new)>(s: State<T>, c: nat)
    requires c < |s.callers| && CallerAwake(s.callers[c])
    ensures CallerStep(s, CallerStepped(s, c), c)
    ensures |CallerStepped(s, c).callers| == |s.callers| && CallerStepped(s, c).callers[c] != s.callers[c]
  {
    hide NoClose, OnlyCaller;
  }

  /** A step of the worker, or of an awake caller that is inside a call. */
  ghost predicate Works<T(!new)>(s: State<T>, s': State<T>) {
    WorkerStep(s, s') || exists c: nat :: c < |s.callers| && CallerAwake(s.callers[c]) && CallerStep(s, s', c)
  }

  /** From every reachable state with a call in progress some step leads to another state, and it is neither a
      new call nor a spurious wake-up. */
  lemma NeverStuck<T(!new)>(run: seq<State<T>>, k: nat) returns (s': State<T>)
    requires Run(run) && k < |run| && !Idle(run[k])
    ensures Works(run[k], s') && s' != run[k]
  {
    SomebodyIsAwake(run, k);
    RunKeeps(run, k);
    var s := run[k];
    hide NoLostWakeup, WorkerStep, CallerStep, WorkerStepped, CallerStepped;
    if WorkerAwake(s.worker) {
      WorkerSteps(s);
      s' := WorkerStepped(s);
    } else {
      var c: nat :| c < |s.callers| && CallerAwake(s.callers[c]);
      CallerSteps(s, c);
      s' := CallerStepped(s, c);
    }
  }

  // ----- a schedule that brings calls to their ends

  // The worker goes first, then any awake caller inside a call, and executions do not throw. This uses up
  // stages of the calls, then stages of the worker, then awake callers.

  function CallLeft<T>(at: Call<T>): nat {
    match at
    case Outside => 0
    case Slot(_) => 4
    case Pickup => 2
    case Waiting(_) => 3
    case Closing => 2
    case Notifying => 1
  }

  function CallsLeft<T>(callers: seq<Caller<T>>): nat {
    if callers == [] then 0 else CallsLeft(callers[..|callers| - 1]) + CallLeft(callers[|callers| - 1].at)
  }

  function AwakeCallers<T>(callers: seq<Caller<T>>): nat {
    if callers == [] then 0
    else AwakeCallers(callers[..|callers| - 1]) + if callers[|callers| - 1].asleep then 0 else 1
  }

  function WorkerLeft<T>(s: State<T>): nat {
    (if s.isAvail then 10 else 0)
    + match s.worker { case Gone => 0 case Asleep => 1 case Head => 2 case Running(_) => 3 case Taken(_) => 4 }
  }

  lemma {:induction false} CallsUpdate<T>(callers: seq<Caller<T>>, c: nat, caller: Caller<T>)
    requires c < |callers|
    ensures CallsLeft(callers[c := caller]) + CallLeft(callers[c].at) == CallsLeft(callers) + CallLeft(caller.at)
    ensures AwakeCallers(callers[c := caller]) + (if callers[c].asleep then 0 else 1)
         == AwakeCallers(callers) + (if caller.asleep then 0 else 1)
  {
    var last := |callers| - 1;
    if c < last {
      CallsUpdate(callers[..last], c, caller);
      assert callers[c := caller][..last] == callers[..last][c := caller];
    } else {
      assert callers[c := caller][..last] == callers[..last];
    }
  }

  lemma {:induction false} WokenCalls<T>(callers: seq<Caller<T>>)
    ensures CallsLeft(Woken(callers)) == CallsLeft(callers)
  {
    if callers != [] {
      WokenCalls(callers[..|callers| - 1]);
      assert Woken(callers)[..|callers| - 1] == Woken(callers[..|callers| - 1]);
    }
  }

  /** `s'` is nearer to the end of the calls than `s`. */
  ghost predicate Nearer<T(!new)>(s: State<T>, s': State<T>) {
    var a, b := CallsLeft(s.callers), CallsLeft(s'.callers);
    || b < a
    || (b == a && WorkerLeft(s') < WorkerLeft(s))
    || (b == a && WorkerLeft(s') == WorkerLeft(s) && AwakeCallers(s'.callers) < AwakeCallers(s.callers))
  }

  lemma WorkerNearer<T(!new)>(s: State<T>)
    requires Handoff(s) && WorkerAwake(s.worker)
    ensures Nearer(s, WorkerStepped(s))
  {
    WokenCalls(s.callers);
    hide CallsLeft, AwakeCallers, Woken;
  }

  /** A call that gets on, whether it notifies or not. */
  lemma CallNearer<T(!new)>(s: State<T>, s': State<T>, c: nat)
    requires c < |s.callers| == |s'.callers| && CallLeft(s'.callers[c].at) < CallLeft(s.callers[c].at)
    requires s'.callers in {s.callers[c := s'.callers[c]], Woken(s.callers)[c := s'.callers[c]]}
    ensures Nearer(s, s')
  {
    WokenCalls(s.callers);
    CallsUpdate(s.callers, c, s'.callers[c]);
    CallsUpdate(Woken(s.callers), c, s'.callers[c]);
    hide CallsLeft, AwakeCallers, Woken;
  }

  /** A caller that goes to sleep. */
  lemma SleepNearer<T(!new)>(s: State<T>, c: nat)
    requires c < |s.callers| && !s.callers[c].asleep
    ensures Nearer(s, Move(s, c, s.callers[c].at, true))
  {
    CallsUpdate(s.callers, c, s.callers[c].(asleep := true));
    hide CallsLeft, AwakeCallers;
  }

  lemma CallerNearer<T(!new)>(s: State<T>, c: nat)
    requires Handoff(s) && !WorkerAwake(s.worker) && c < |s.callers| && CallerAwake(s.callers[c])
    ensures Nearer(s, CallerStepped(s, c))
  {
    var s' := CallerStepped(s, c);
    hide Woken, CallsLeft, AwakeCallers, Nearer;
    if s'.callers[c].at == s.callers[c].at {
      assert s' == Move(s, c, s.callers[c].at, true);
      SleepNearer(s, c);
    } else {
      CallNearer(s, s', c);
    }
  }

  // ----- whole runs

  function Last<T>(run: seq<State<T>>): State<T>
    requires |run| > 0
  {
    run[|run| - 1]
  }

  /** Nothing more will be taken in or closed by the calls in progress. */
  ghost predicate Quiet<T(!new)>(s: State<T>) {
    forall i :: 0 <= i < |s.callers| ==> !s.callers[i].at.Slot? && !AtClose(s.callers[i].at)
  }

  lemma WorkerKeepsQuiet<T(!new)>(s: State<T>)
    requires WorkerAwake(s.worker)
    ensures var s' := WorkerStepped(s);
            && |s'.callers| == |s.callers|
            && s'.isFail == s.isFail && s'.doRun == s.doRun && s'.accepted == s.accepted && (Quiet(s) ==> Quiet(s'))
  {
  }

  lemma CallerKeepsQuiet<T(!new)>(s: State<T>, c: nat)
    requires c < |s.callers| && CallerAwake(s.callers[c]) && Quiet(s)
    ensures var s' := CallerStepped(s, c);
            s'.isFail == s.isFail && s'.doRun == s.doRun && s'.accepted == s.accepted && Quiet(s')
  {
    assert !s.callers[c].at.Slot? && !AtClose(s.callers[c].at);
    hide Move, NotifyAll, Quiet;
    match s.callers[c].at
    case Pickup =>
      MoveKeepsQuiet(s, c, Pickup, true);
      MoveKeepsQuiet(s, c, Outside, false);
    case Waiting(closing) =>
      MoveKeepsQuiet(s, c, Waiting(false), true);
      MoveKeepsQuiet(s, c, Outside, false);
    case Notifying => MoveKeepsQuiet(s, c, Outside, false);
  }

  lemma MoveKeepsQuiet<T(!new)>(s: State<T>, c: nat, at: Call<T>, asleep: bool)
    requires Quiet(s) && c < |s.callers| && !at.Slot? && !AtClose(at)
    ensures |NotifyAll(s).callers| == |s.callers|
    ensures forall t :: t == Move(s, c, at, asleep) || t == Move(NotifyAll(s), c, at, asleep) ==>
              t.isFail == s.isFail && t.doRun == s.doRun && t.accepted == s.accepted && Quiet(t)
  {
  }

  lemma CallerKeepsFailure<T(!new)>(s: State<T>, c: nat)
    requires c < |s.callers|
    ensures CallerStepped(s, c).isFail == s.isFail
  {
  }

  lemma RunGrows<T(!new)>(run: seq<State<T>>, s: State<T>)
    requires Run(run) && Next(Last(run), s)
    ensures Run(run + [s])
  {
    hide Next, Init;
  }

  /** With nobody in a call and nobody awake everything has been executed, but for what a failure leaves. */
  lemma NothingLeft<T(!new)>(s: State<T>)
    requires Handoff(s) && NoLostWakeup(s) && Drained(s) && Idle(s) && !WorkerAwake(s.worker)
    ensures !s.isFail ==> s.executed == s.accepted && !s.isAvail && !s.isBusy
    ensures s.worker == if s.doRun then Asleep else Gone
    ensures forall i :: 0 <= i < |s.callers| ==> s.callers[i] == Caller(Outside, false)
  {
  }

  /** Where the schedule takes a run: to the ends of all calls, with everything executed that was taken in, if
      nothing had failed. */
  ghost predicate Finished<T(!new)>(s: State<T>) {
    && (forall i :: 0 <= i < |s.callers| ==> s.callers[i] == Caller(Outside, false))
    && (!s.isFail ==> s.executed == s.accepted && !s.isAvail && !s.isBusy)
    && s.worker == (if s.doRun then Asleep else Gone)
  }

  /** Every run can be continued, by steps of the worker and of the calls in progress alone, until nobody is in a
      call and all that was taken in has been executed, unless an execution has thrown before. */
  lemma {:induction false} RunCompletes<T(!new)>(run: seq<State<T>>) returns (whole: seq<State<T>>)
    requires Run(run)
    ensures run <= whole && Run(whole) && Finished(Last(whole))
    ensures forall i :: |run| - 1 <= i < |whole| - 1 ==> Works(whole[i], whole[i + 1])
    ensures Last(whole).isFail == Last(run).isFail && |Last(whole).callers| == |Last(run).callers|
    ensures Quiet(Last(run)) ==> Last(whole).accepted == Last(run).accepted && Last(whole).doRun == Last(run).doRun
    decreases CallsLeft(Last(run).callers), WorkerLeft(Last(run)), AwakeCallers(Last(run).callers)
  {
    var s, k := Last(run), |run| - 1;
    RunKeeps(run, k);
    RunDrains(run, k);
    hide Handoff, NoLostWakeup, Drained, Run, Next, WorkerStep, CallerStep, WorkerStepped, CallerStepped, Quiet;
    hide CallsLeft, WorkerLeft, AwakeCallers;
    var s' := s;
    if WorkerAwake(s.worker) {
      WorkerSteps(s);
      WorkerNearer(s);
      WorkerKeepsQuiet(s);
      s' := WorkerStepped(s);
    } else if c: nat :| c < |s.callers| && CallerAwake(s.callers[c]) {
      CallerSteps(s, c);
      CallerNearer(s, c);
      CallerKeepsFailure(s, c);
      if Quiet(s) {
        CallerKeepsQuiet(s, c);
      }
      s' := CallerStepped(s, c);
    } else {
      if !Idle(s) {
        SomebodyIsAwake(run, k);
      }
      NothingLeft(s);
      return run;
    }
    assert Next(s, s') by { WorksIsNext(s, s'); }
    RunGrows(run, s');
    whole := RunCompletes(run + [s']);
    assert whole[k + 1] == s' && whole[k] == s;
  }

  lemma WorksIsNext<T(!new)>(s: State<T>, s': State<T>)
    requires Works(s, s')
    ensures Next(s, s')
  {
    hide WorkerStep, CallerStep;
  }

  lemma StartTake<T(!new)>(s: State<T>, data: T) returns (s1: State<T>, s2: State<T>)
    requires Finished(s) && s.doRun && !s.isFail && |s.callers| >= 1
    ensures Next(s, s1) && Next(s1, s2) && Quiet(s2)
    ensures s2.accepted == s.accepted + [data] && s2.doRun && !s2.isFail && |s2.callers| == |s.callers|
    ensures s2.worker == s.worker && s2.isAvail && s2.input == Some(data)
    ensures s2.executed == s.executed && s2.failed == s.failed && s2.callers == s.callers[0 := Caller(Notifying, false)]
  {
    s1 := Move(s, 0, Slot(data), false);
    s2 := CallerStepped(s1, 0);
    assert CallerStep(s, s1, 0);
    assert CallerStep(s1, s2, 0);
  }

  /** For every list of inputs there is a run that takes them in and ends with exactly these executed, in order,
      and nobody in a call. */
  lemma {:induction false} SomeRunCompletes<T(!new)>(inputs: seq<T>, size: nat) returns (run: seq<State<T>>)
    requires size >= 1
    ensures Run(run) && |run[0].callers| == size && |Last(run).callers| == size
    ensures Finished(Last(run)) && Last(run).executed == Last(run).accepted == inputs
    ensures Last(run).doRun && !Last(run).isFail
  {
    hide Finished, Next, Quiet;
    if inputs == [] {
      run := StartRun(size);
      run := RunCompletes(run);
    } else {
      var last := |inputs| - 1;
      run := SomeRunCompletes(inputs[..last], size);
      var s1, s2 := StartTake(Last(run), inputs[last]);
      RunGrows(run, s1);
      RunGrows(run + [s1], s2);
      run := RunCompletes(run + [s1] + [s2]);
      assert inputs == inputs[..last] + [inputs[last]];
    }
    AllExecuted(Last(run));
  }

  lemma StartRun<T(!new)>(size: nat) returns (run: seq<State<T>>)
    ensures Run(run) && |run| == 1 && |run[0].callers| == size
    ensures Quiet(Last(run)) && Last(run).doRun && !Last(run).isFail && Last(run).accepted == []
  {
    run := [State(None, true, false, false, false, Head, seq(size, _ => Caller(Outside, false)), [], [], [])];
    assert Init(run[0]);
  }

  lemma AllExecuted<T(!new)>(s: State<T>)
    requires Finished(s) && !s.isFail
    ensures s.executed == s.accepted
  {
  }

  /** A wait on a finished thread returns at once. */
  lemma Wait<T(!new)>(run: seq<State<T>>) returns (whole: seq<State<T>>)
    requires Run(run) && Finished(Last(run)) && !Last(run).isFail && |Last(run).callers| >= 1
    ensures Run(whole) && run < whole && Last(whole) == Last(run)
  {
    var s := Last(run);
    var s1 := Move(s, 0, Waiting(false), false);
    var s2 := CallerStepped(s1, 0);
    assert CallerStep(s, s1, 0) && CallerStep(s1, s2, 0);
    RunGrows(run, s1);
    RunGrows(run + [s1], s2);
    whole := run + [s1] + [s2];
    assert s2.callers == s.callers;
  }

  /** The steps of close on a finished thread, up to its notification. */
  lemma StartClose<T(!new)>(run: seq<State<T>>) returns (whole: seq<State<T>>)
    requires Run(run) && Finished(Last(run)) && !Last(run).isFail && |Last(run).callers| >= 1
    ensures Run(whole) && run < whole && Quiet(Last(whole))
    ensures Last(whole).accepted == Last(run).accepted && !Last(whole).doRun && !Last(whole).isFail
  {
    var s := Last(run);
    var s1 := Move(s, 0, Waiting(true), false);
    var s2 := CallerStepped(s1, 0);
    var s3 := CallerStepped(s2, 0);
    assert CallerStep(s, s1, 0) && CallerStep(s1, s2, 0) && CallerStep(s2, s3, 0);
    RunGrows(run, s1);
    RunGrows(run + [s1], s2);
    RunGrows(run + [s1] + [s2], s3);
    whole := run + [s1] + [s2] + [s3];
  }

  /** Takes, a wait and a close: everything is executed, and the worker is gone. */
  lemma SomeRunCloses<T(!new)>(inputs: seq<T>, size: nat) returns (run: seq<State<T>>)
    requires size >= 1
    ensures Run(run) && |run[0].callers| == size
    ensures Idle(Last(run)) && Last(run).worker == Gone && !Last(run).doRun && !Last(run).isFail
    ensures Last(run).executed == Last(run).accepted == inputs
  {
    hide Next, Quiet;
    run := SomeRunCompletes(inputs, size);
    run := Wait(run);
    run := StartClose(run);
    run := RunCompletes(run);
  }

  /** One more take, up to its execution. */
  lemma TakeUp<T(!new)>(run: seq<State<T>>, data: T) returns (whole: seq<State<T>>)
    requires Run(run) && Finished(Last(run)) && Last(run).doRun && !Last(run).isFail && |Last(run).callers| >= 1
    ensures Run(whole) && run < whole && Idle(Last(whole))
    ensures Last(whole).worker == Running(data) && !Last(whole).isAvail
    ensures Last(whole).executed == Last(run).executed && Last(whole).failed == Last(run).failed
    ensures Last(whole).accepted == Last(run).accepted + [data]
  {
    var s := Last(run);
    var s1, s2 := StartTake(s, data);
    whole := run + [s1] + [s2];
    RunGrows(run, s1);
    RunGrows(run + [s1], s2);
    var s3 := CallerStepped(s2, 0);
    assert CallerStep(s2, s3, 0);
    RunGrows(whole, s3);
    whole := whole + [s3];
    whole := Started(whole, data);
  }

  lemma Started<T(!new)>(run: seq<State<T>>, data: T) returns (whole: seq<State<T>>)
    requires Run(run) && Idle(Last(run)) && Last(run).worker == Head && Last(run).doRun
    requires Last(run).isAvail && Last(run).input == Some(data)
    ensures Run(whole) && run < whole && Idle(Last(whole))
    ensures Last(whole).worker == Running(data) && !Last(whole).isAvail
    ensures Last(whole).executed == Last(run).executed && Last(whole).failed == Last(run).failed
    ensures Last(whole).accepted == Last(run).accepted
  {
    var s1 := WorkerStepped(Last(run));
    var s2 := WorkerStepped(s1);
    assert WorkerStep(Last(run), s1) && WorkerStep(s1, s2);
    RunGrows(run, s1);
    RunGrows(run + [s1], s2);
    whole := run + [s1] + [s2];
  }

  /** An execution may throw, which ends the worker and is the only input lost. */
  lemma ThrowAt<T(!new)>(run: seq<State<T>>, data: T) returns (whole: seq<State<T>>)
    requires Run(run) && Finished(Last(run)) && Last(run).doRun && !Last(run).isFail && |Last(run).callers| >= 1
    requires Last(run).failed == []
    ensures Run(whole) && run < whole && Idle(Last(whole))
    ensures var s, t := Last(run), Last(whole);
            && t.isFail && !t.doRun && t.worker == Gone && t.executed == s.executed && t.failed == [data]
            && t.accepted == s.accepted + [data]
  {
    whole := TakeUp(run, data);
    var s := Last(whole);
    var thrown := LoopHead(s.(isBusy := false, doRun := false, isFail := true, failed := s.failed + [data]));
    assert WorkerStep(s, thrown);
    RunGrows(whole, thrown);
    whole := whole + [thrown];
  }
}
