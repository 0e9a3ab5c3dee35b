/** The one-slot handoff of `Thread`: any number of callers put inputs into a slot, one worker takes
    them out and executes them, all under one mutex and one condition variable. A step is what an
    actor does in one stretch of holding the mutex, one notification sent after releasing it, or a wake-up
    that nobody asked for. */
module ThreadHandoff {
  import opened Wrappers

  /** Where a caller is: in the first or second loop of `take`, in the loop of `wait`, in `close` past
      its wait, or about to notify after having released the mutex. */
  datatype Call<T> = Outside | Slot(data: T) | Pickup | Waiting(closing: bool) | Closing | Notifying

  datatype Caller<T> = Caller(at: Call<T>, asleep: bool)

  /** The worker: at the head of its loop, asleep in it, past taking an input but yet to notify,
      executing, or gone. */
  datatype Worker<T> = Head | Asleep | Taken(tmp: T) | Running(tmp: T) | Gone

  /** The fields of `Thread`, its actors, and what has been taken in, executed and lost to an
      exception so far. */
  datatype State<T> = State(
    input: Option<T>, doRun: bool, isFail: bool, isBusy: bool, isAvail: bool,
    worker: Worker<T>, callers: seq<Caller<T>>,
    accepted: seq<T>, executed: seq<T>, failed: seq<T>)

  // ----- condition variable

  function Woken<T>(callers: seq<Caller<T>>): seq<Caller<T>> {
    seq(|callers|, i requires 0 <= i < |callers| => callers[i].(asleep := false))
  }

  /** `signal.notify_all()` */
  function NotifyAll<T>(s: State<T>): State<T> {
    s.(callers := Woken(s.callers), worker := if s.worker.Asleep? then Head else s.worker)
  }

  function Move<T>(s: State<T>, c: nat, at: Call<T>, asleep: bool): State<T>
    requires c < |s.callers|
  {
    s.(callers := s.callers[c := Caller(at, asleep)])
  }

  /** A condition variable may let go of a sleeper without a notification. */
  ghost predicate Spurious<T(!new)>(s: State<T>, s': State<T>) {
    || (s.worker.Asleep? && s' == s.(worker := Head))
    || exists c: nat :: c < |s.callers| && s.callers[c].asleep && s' == Move(s, c, s.callers[c].at, false)
  }

  // ----- the worker

  /** From the head of the loop to the next release of the mutex. */
  function LoopHead<T>(s: State<T>): State<T> {
    if !s.doRun then NotifyAll(s).(worker := Gone)
    else if !s.isAvail then NotifyAll(s).(worker := Asleep)
    else if s.input.Some? then s.(isAvail := false, isBusy := true, input := None, worker := Taken(s.input.value))
    else s
  }

  ghost predicate WorkerStep<T(!new)>(s: State<T>, s': State<T>) {
    match s.worker
    case Head => s' == LoopHead(s)
    case Asleep => false
    case Taken(tmp) => s' == NotifyAll(s).(worker := Running(tmp))
    case Running(tmp) =>
      || s' == LoopHead(s.(isBusy := false, executed := s.executed + [tmp]))
      || s' == LoopHead(s.(isBusy := false, doRun := false, isFail := true, failed := s.failed + [tmp]))
    case Gone => false
  }

  // ----- the callers

  /** Nobody is closing, which `close` asks of its callers. */
  ghost predicate NoClose<T(!new)>(s: State<T>) {
    forall i :: 0 <= i < |s.callers| ==> !s.callers[i].at.Closing? && s.callers[i].at != Waiting(true)
  }

  ghost predicate OnlyCaller<T(!new)>(s: State<T>, c: nat) {
    forall i :: 0 <= i < |s.callers| && i != c ==> s.callers[i].at.Outside?
  }

  /** The first loop of `take`, and what follows it. */
  function SlotStep<T>(s: State<T>, c: nat, data: T): State<T>
    requires c < |s.callers|
  {
    if s.doRun && s.isAvail then Move(s, c, Slot(data), true)
    else if !s.doRun then Move(s, c, Outside, false)
    else
      var t := s.(isAvail := true, input := Some(data), accepted := s.accepted + [data]);
      if s.isBusy then Move(NotifyAll(t), c, Pickup, true) else Move(t, c, Notifying, false)
  }

  /** The second loop of `take`: no triple buffering. */
  function PickupStep<T>(s: State<T>, c: nat): State<T>
    requires c < |s.callers|
  {
    if s.doRun && s.isAvail && s.isBusy then Move(NotifyAll(s), c, Pickup, true) else Move(s, c, Outside, false)
  }

  function WaitStep<T>(s: State<T>, c: nat, closing: bool): State<T>
    requires c < |s.callers|
  {
    if s.doRun && (s.isAvail || s.isBusy) then Move(s, c, Waiting(closing), true)
    else Move(s, c, if closing && !s.isFail then Closing else Outside, false)
  }

  ghost predicate StartCall<T(!new)>(s: State<T>, s': State<T>, c: nat)
    requires c < |s.callers|
  {
    || (NoClose(s) && exists data :: s' == Move(s, c, Slot(data), false))
    || (NoClose(s) && s' == Move(s, c, Waiting(false), false))
    || (OnlyCaller(s, c) && s' == Move(s, c, Waiting(true), false))
  }

  /** One step of an awake caller. */
  ghost predicate CallerStep<T(!new)>(s: State<T>, s': State<T>, c: nat)
    requires c < |s.callers|
  {
    && !s.callers[c].asleep
    && match s.callers[c].at
       case Outside => StartCall(s, s', c)
       case Slot(data) => s' == SlotStep(s, c, data)
       case Pickup => s' == PickupStep(s, c)
       case Waiting(closing) => s' == WaitStep(s, c, closing)
       case Closing => s' == Move(s.(doRun := false), c, Notifying, false)
       case Notifying => s' == Move(NotifyAll(s), c, Outside, false)
  }

  ghost predicate Init<T(!new)>(s: State<T>) {
    && s.doRun && !s.isFail && !s.isBusy && !s.isAvail && s.input == None && s.worker == Head
    && s.accepted == s.executed == s.failed == []
    && forall i :: 0 <= i < |s.callers| ==> s.callers[i] == Caller(Outside, false)
  }

  ghost predicate Next<T(!new)>(s: State<T>, s': State<T>) {
    || WorkerStep(s, s') || Spurious(s, s')
    || exists c: nat :: c < |s.callers| && CallerStep(s, s', c)
  }

  ghost predicate Run<T(!new)>(run: seq<State<T>>) {
    |run| > 0 && Init(run[0]) && forall i :: 0 <= i < |run| - 1 ==> Next(run[i], run[i + 1])
  }

  /** No proof may count on a sleeper staying asleep: waking up is a step of every state. */
  lemma AnySleeperWakes<T(!new)>(s: State<T>, c: nat)
    ensures s.worker.Asleep? ==> Next(s, s.(worker := Head))
    ensures c < |s.callers| && s.callers[c].asleep ==> Next(s, s.(callers := s.callers[c := Caller(s.callers[c].at, false)]))
  {
    if c < |s.callers| && s.callers[c].asleep {
      assert Spurious(s, Move(s, c, s.callers[c].at, false));
    }
  }

  // ----- every input is executed once, in the order it was taken in

  /** The input being executed. */
  function InHand<T>(w: Worker<T>): seq<T> {
    match w
    case Taken(tmp) => [tmp]
    case Running(tmp) => [tmp]
    case _ => []
  }

  function InSlot<T>(s: State<T>): seq<T> {
    if s.isAvail && s.input.Some? then [s.input.value] else []
  }

  ghost predicate Handoff<T(!new)>(s: State<T>) {
    && s.accepted == s.executed + s.failed + InHand(s.worker) + InSlot(s)
    && (s.isAvail <==> s.input.Some?)
    && (s.isBusy <==> s.worker.Taken? || s.worker.Running?)
    && (s.isFail <==> s.failed != [])
    && (s.isFail ==> !s.doRun)
    && (s.worker.Gone? ==> !s.doRun)
    && |s.failed| <= 1
    && (s.isFail ==> s.worker.Gone?)
  }

  lemma LoopHeadKeepsHandoff<T(!new)>(s: State<T>)
    requires s.worker.Head? || (s.worker.Running? && !s.isBusy)
    requires s.accepted == s.executed + s.failed + InSlot(s)
    requires (s.isAvail <==> s.input.Some?) && !s.isBusy && (s.isFail <==> s.failed != [])
    requires (s.isFail ==> !s.doRun) && |s.failed| <= 1
    ensures Handoff(LoopHead(s))
  {
  }

  lemma WorkerKeepsHandoff<T(!new)>(s: State<T>, s': State<T>)
    requires Handoff(s) && WorkerStep(s, s')
    ensures Handoff(s')
  {
    match s.worker
    case Head => LoopHeadKeepsHandoff(s);
    case Running(tmp) =>
      LoopHeadKeepsHandoff(s.(isBusy := false, executed := s.executed + [tmp]));
      LoopHeadKeepsHandoff(s.(isBusy := false, doRun := false, isFail := true, failed := s.failed + [tmp]));
    case _ =>
  }

  // ----- no wakeup is lost

  /** Somebody is about to notify all. */
  ghost predicate NotifyPending<T(!new)>(s: State<T>) {
    s.worker.Taken? || exists i :: 0 <= i < |s.callers| && s.callers[i].at.Notifying?
  }

  /** What this call waits for has not happened yet. */
  predicate MustWait<T>(s: State<T>, at: Call<T>) {
    match at
    case Slot(_) => s.doRun && s.isAvail
    case Pickup => s.doRun && s.isAvail && s.isBusy
    case Waiting(_) => s.doRun && (s.isAvail || s.isBusy)
    case _ => false
  }

  /** Whoever sleeps either has to, or is about to be woken. */
  ghost predicate NoLostWakeup<T(!new)>(s: State<T>) {
    NotifyPending(s) ||
    (&& (s.worker.Asleep? ==> s.doRun && !s.isAvail)
     && forall i :: 0 <= i < |s.callers| && s.callers[i].asleep ==> MustWait(s, s.callers[i].at))
  }

  ghost predicate Inv<T(!new)>(s: State<T>) {
    Handoff(s) && NoLostWakeup(s) && forall i :: 0 <= i < |s.callers| && s.callers[i].at.Notifying? ==> !s.callers[i].asleep
  }

  lemma WorkerKeeps<T(!new)>(s: State<T>, s': State<T>)
    requires Inv(s) && WorkerStep(s, s')
    ensures Inv(s')
  {
    WorkerKeepsHandoff(s, s');
  }

  lemma StillPending<T(!new)>(s: State<T>, s': State<T>, c: nat)
    requires c < |s.callers| == |s'.callers| && s'.worker == s.worker && !s.callers[c].at.Notifying?
    requires forall i :: 0 <= i < |s.callers| && i != c ==> s'.callers[i] == s.callers[i]
    ensures NotifyPending(s) ==> NotifyPending(s')
  {
  }

  lemma SlotKeeps<T(!new)>(s: State<T>, c: nat, data: T)
    requires Inv(s) && c < |s.callers| && !s.callers[c].asleep && s.callers[c].at == Slot(data)
    ensures Inv(SlotStep(s, c, data))
  {
    var s' := SlotStep(s, c, data);
    BusyWorker(s);
    if s.doRun && !s.isAvail && !s.isBusy {
      assert s'.callers[c].at.Notifying?;
    } else if !(s.doRun && !s.isAvail) {
      StillPending(s, s', c);
    }
  }

  lemma PickupKeeps<T(!new)>(s: State<T>, c: nat)
    requires Inv(s) && c < |s.callers| && !s.callers[c].asleep && s.callers[c].at == Pickup
    ensures Inv(PickupStep(s, c))
  {
    BusyWorker(s);
    if !(s.doRun && s.isAvail && s.isBusy) {
      StillPending(s, PickupStep(s, c), c);
    }
  }

  /** A move of one caller that leaves the fields alone. */
  lemma MoveKeeps<T(!new)>(s: State<T>, c: nat, at: Call<T>, asleep: bool)
    requires Inv(s) && c < |s.callers| && !s.callers[c].at.Notifying? && !at.Notifying?
    requires asleep ==> MustWait(s, at)
    ensures Inv(Move(s, c, at, asleep))
  {
    StillPending(s, Move(s, c, at, asleep), c);
  }

  lemma StartKeeps<T(!new)>(s: State<T>, s': State<T>, c: nat)
    requires Inv(s) && c < |s.callers| && StartCall(s, s', c) && s.callers[c].at == Outside
    ensures Inv(s')
  {
    hide Inv, NoClose, OnlyCaller;
    if s' == Move(s, c, Waiting(false), false) {
      MoveKeeps(s, c, Waiting(false), false);
    } else if s' == Move(s, c, Waiting(true), false) {
      MoveKeeps(s, c, Waiting(true), false);
    } else {
      var data :| s' == Move(s, c, Slot(data), false);
      MoveKeeps(s, c, Slot(data), false);
    }
  }

  lemma CloseKeeps<T(!new)>(s: State<T>, c: nat)
    requires Inv(s) && c < |s.callers|
    ensures Inv(Move(s.(doRun := false), c, Notifying, false))
  {
    assert Move(s.(doRun := false), c, Notifying, false).callers[c].at.Notifying?;
  }

  lemma NotifyKeeps<T(!new)>(s: State<T>, c: nat)
    requires Inv(s) && c < |s.callers|
    ensures Inv(Move(NotifyAll(s), c, Outside, false))
  {
  }

  lemma CallerKeeps<T(!new)>(s: State<T>, s': State<T>, c: nat)
    requires Inv(s) && c < |s.callers| && CallerStep(s, s', c)
    ensures Inv(s')
  {
    hide Inv, SlotStep, PickupStep, StartCall, NotifyAll;
    match s.callers[c].at
    case Outside => StartKeeps(s, s', c);
    case Slot(data) => SlotKeeps(s, c, data);
    case Pickup => PickupKeeps(s, c);
    case Waiting(closing) =>
      var wait := s.doRun && (s.isAvail || s.isBusy);
      MoveKeeps(s, c, if wait then Waiting(closing) else if closing && !s.isFail then Closing else Outside, wait);
    case Closing => CloseKeeps(s, c);
    case Notifying => NotifyKeeps(s, c);
  }

  lemma SpuriousKeeps<T(!new)>(s: State<T>, s': State<T>)
    requires Inv(s) && Spurious(s, s')
    ensures Inv(s')
  {
    if !(s.worker.Asleep? && s' == s.(worker := Head)) {
      var c: nat :| c < |s.callers| && s.callers[c].asleep && s' == Move(s, c, s.callers[c].at, false);
      MoveKeeps(s, c, s.callers[c].at, false);
    }
  }

  lemma BusyWorker<T(!new)>(s: State<T>)
    requires Handoff(s)
    ensures s.isBusy <==> s.worker.Taken? || s.worker.Running?
    ensures s.isAvail && s.doRun && s.isBusy ==> !s.worker.Asleep?
  {
  }

  lemma InitInv<T(!new)>(s: State<T>)
    requires Init(s)
    ensures Inv(s)
  {
  }

  lemma StepKeeps<T(!new)>(s: State<T>, s': State<T>)
    requires Inv(s) && Next(s, s')
    ensures Inv(s')
  {
    hide Inv, WorkerStep, CallerStep, Spurious;
    if WorkerStep(s, s') {
      WorkerKeeps(s, s');
    } else if Spurious(s, s') {
      SpuriousKeeps(s, s');
    } else {
      var c: nat :| c < |s.callers| && CallerStep(s, s', c);
      CallerKeeps(s, s', c);
    }
  }

  lemma {:induction false} RunKeeps<T(!new)>(run: seq<State<T>>, k: nat)
    requires Run(run) && k < |run|
    ensures Inv(run[k])
  {
    hide Next, Handoff, NoLostWakeup;
    if k == 0 {
      InitInv(run[0]);
    } else {
      RunKeeps(run, k - 1);
      assert Next(run[k - 1], run[k]);
      StepKeeps(run[k - 1], run[k]);
    }
  }

  /** In every run the inputs taken in are, in order, those executed, the one the worker has and the
      one in the slot; only an exception in the callback loses any. */
  lemma OrderedHandoff<T(!new)>(run: seq<State<T>>, k: nat)
    requires Run(run) && k < |run|
    ensures var s := run[k];
            && (!s.isFail ==> s.accepted == s.executed + InHand(s.worker) + InSlot(s))
            && s.executed <= s.accepted
  {
    RunKeeps(run, k);
  }

  // ----- a closed thread has nothing left

  predicate AtClose<T>(at: Call<T>) {
    at.Closing? || at == Waiting(true)
  }

  /** Nothing is in the slot or in the worker's hands once a call of `close` is past its wait, nor ever after
      unless the callback has thrown. Until then that call is the only one. */
  ghost predicate Drained<T(!new)>(s: State<T>) {
    && (forall i :: 0 <= i < |s.callers| && AtClose(s.callers[i].at) ==> OnlyCaller(s, i))
    && ((!s.doRun && !s.isFail) || (exists i :: 0 <= i < |s.callers| && s.callers[i].at.Closing?) ==>
          !s.isAvail && !s.isBusy)
  }

  lemma WorkerDrains<T(!new)>(s: State<T>, s': State<T>)
    requires Handoff(s) && Drained(s) && WorkerStep(s, s')
    ensures Drained(s')
  {
    assert forall i :: 0 <= i < |s.callers| ==> s'.callers[i].at == s.callers[i].at;
  }

  lemma SpuriousDrains<T(!new)>(s: State<T>, s': State<T>)
    requires Drained(s) && Spurious(s, s')
    ensures Drained(s')
  {
    assert |s'.callers| == |s.callers| && forall i :: 0 <= i < |s.callers| ==> s'.callers[i].at == s.callers[i].at;
  }

  /** Only caller c moves. */
  ghost predicate Elsewhere<T(!new)>(s: State<T>, s': State<T>, c: nat)
    requires c < |s.callers|
  {
    |s'.callers| == |s.callers| && forall i :: 0 <= i < |s.callers| && i != c ==> s'.callers[i].at == s.callers[i].at
  }

  lemma MoveDrains<T(!new)>(s: State<T>, s': State<T>, c: nat)
    requires Drained(s) && c < |s.callers| && Elsewhere(s, s', c)
    requires s'.doRun == s.doRun && s'.isFail == s.isFail && s'.isAvail == s.isAvail && s'.isBusy == s.isBusy
    requires AtClose(s'.callers[c].at) ==> OnlyCaller(s, c)
    requires s'.callers[c].at.Closing? ==> !s.isAvail && !s.isBusy
    requires s.callers[c].at.Outside? ==> NoClose(s) || OnlyCaller(s, c)
    ensures Drained(s')
  {
  }

  lemma AcceptDrains<T(!new)>(s: State<T>, s': State<T>, c: nat)
    requires Drained(s) && c < |s.callers| && Elsewhere(s, s', c) && s.doRun && s'.doRun
    requires s.callers[c].at.Slot? && !AtClose(s'.callers[c].at)
    ensures Drained(s')
  {
  }

  lemma CloseDrains<T(!new)>(s: State<T>, s': State<T>, c: nat)
    requires Drained(s) && c < |s.callers| && Elsewhere(s, s', c) && s.callers[c].at.Closing?
    requires s'.isAvail == s.isAvail && s'.isBusy == s.isBusy && !AtClose(s'.callers[c].at)
    ensures Drained(s')
  {
  }

  /** What a step of caller c does to the callers, when t has the fields of the new state. */
  lemma Moved<T(!new)>(s: State<T>, t: State<T>, c: nat, at: Call<T>, asleep: bool)
    requires c < |s.callers| && t.callers == s.callers
    ensures var m := Move(t, c, at, asleep);
            && Elsewhere(s, m, c) && m.callers[c].at == at
            && m.doRun == t.doRun && m.isFail == t.isFail && m.isAvail == t.isAvail && m.isBusy == t.isBusy
    ensures |NotifyAll(t).callers| == |t.callers|
    ensures var m := Move(NotifyAll(t), c, at, asleep);
            && Elsewhere(s, m, c) && m.callers[c].at == at
            && m.doRun == t.doRun && m.isFail == t.isFail && m.isAvail == t.isAvail && m.isBusy == t.isBusy
  {
  }

  lemma StartDrains<T(!new)>(s: State<T>, s': State<T>, c: nat)
    requires Drained(s) && c < |s.callers| && s.callers[c].at.Outside? && StartCall(s, s', c)
    ensures Drained(s')
  {
    hide Drained, Elsewhere, OnlyCaller, NoClose, Move, NotifyAll;
    if NoClose(s) && s' == Move(s, c, Waiting(false), false) {
      Moved(s, s, c, Waiting(false), false);
    } else if OnlyCaller(s, c) && s' == Move(s, c, Waiting(true), false) {
      Moved(s, s, c, Waiting(true), false);
    } else {
      var data :| s' == Move(s, c, Slot(data), false);
      Moved(s, s, c, Slot(data), false);
    }
    MoveDrains(s, s', c);
  }

  lemma SlotDrains<T(!new)>(s: State<T>, c: nat, data: T)
    requires Drained(s) && c < |s.callers| && s.callers[c].at == Slot(data)
    ensures Drained(SlotStep(s, c, data))
  {
    hide Drained, Elsewhere, OnlyCaller, NoClose, Move, NotifyAll;
    var s' := SlotStep(s, c, data);
    if s.doRun && s.isAvail {
      Moved(s, s, c, Slot(data), true);
      MoveDrains(s, s', c);
    } else if !s.doRun {
      Moved(s, s, c, Outside, false);
      MoveDrains(s, s', c);
    } else {
      var t := s.(isAvail := true, input := Some(data), accepted := s.accepted + [data]);
      Moved(s, t, c, if s.isBusy then Pickup else Notifying, s.isBusy);
      AcceptDrains(s, s', c);
    }
  }

  lemma WaitDrains<T(!new)>(s: State<T>, c: nat, closing: bool)
    requires Drained(s) && c < |s.callers| && s.callers[c].at == Waiting(closing)
    ensures Drained(WaitStep(s, c, closing))
  {
    DrainedFacts(s, c);
    hide Drained, Elsewhere, OnlyCaller, NoClose, Move, NotifyAll;
    var wait := s.doRun && (s.isAvail || s.isBusy);
    Moved(s, s, c, if wait then Waiting(closing) else if closing && !s.isFail then Closing else Outside, wait);
    MoveDrains(s, WaitStep(s, c, closing), c);
  }

  lemma CallerDrains<T(!new)>(s: State<T>, s': State<T>, c: nat)
    requires Drained(s) && c < |s.callers| && CallerStep(s, s', c)
    ensures Drained(s')
  {
    hide Drained, Elsewhere, OnlyCaller, NoClose, Move, NotifyAll, SlotStep, WaitStep, StartCall;
    match s.callers[c].at
    case Outside => StartDrains(s, s', c);
    case Slot(data) => SlotDrains(s, c, data);
    case Pickup =>
      var wait := s.doRun && s.isAvail && s.isBusy;
      Moved(s, s, c, if wait then Pickup else Outside, wait);
      MoveDrains(s, s', c);
    case Waiting(closing) => WaitDrains(s, c, closing);
    case Closing =>
      Moved(s, s.(doRun := false), c, Notifying, false);
      CloseDrains(s, s', c);
    case Notifying =>
      Moved(s, s, c, Outside, false);
      MoveDrains(s, s', c);
  }

  lemma DrainedFacts<T(!new)>(s: State<T>, c: nat)
    requires Drained(s) && c < |s.callers|
    ensures !s.doRun && !s.isFail ==> !s.isAvail && !s.isBusy
    ensures AtClose(s.callers[c].at) ==> OnlyCaller(s, c)
  {
  }

  lemma {:induction false} RunDrains<T(!new)>(run: seq<State<T>>, k: nat)
    requires Run(run) && k < |run|
    ensures Drained(run[k])
  {
    hide Handoff, NoLostWakeup, WorkerStep, CallerStep, Spurious;
    if k > 0 {
      RunDrains(run, k - 1);
      RunKeeps(run, k - 1);
      var s, s' := run[k - 1], run[k];
      assert Next(s, s');
      hide Drained;
      if WorkerStep(s, s') {
        WorkerDrains(s, s');
      } else if Spurious(s, s') {
        SpuriousDrains(s, s');
      } else {
        var c: nat :| c < |s.callers| && CallerStep(s, s', c);
        CallerDrains(s, s', c);
      }
    }
  }

  /** When a `wait` returns without throwing, everything taken in has been executed, also when the thread has
      been closed. */
  lemma WaitMeansDone<T(!new)>(run: seq<State<T>>, k: nat, c: nat, closing: bool)
    requires Run(run) && k + 1 < |run| && c < |run[k].callers|
    requires run[k].callers[c].at == Waiting(closing) && !run[k].isFail && CallerStep(run[k], run[k + 1], c)
    requires run[k + 1].callers[c].at != Waiting(closing)
    ensures run[k].executed == run[k].accepted
  {
    RunKeeps(run, k);
    RunDrains(run, k);
  }

  // ----- no triple buffering

  ghost predicate InPickup<T(!new)>(s: State<T>) {
    exists i :: 0 <= i < |s.callers| && s.callers[i].at.Pickup?
  }

  /** The slot is full while the worker is busy only as long as a call of `take` has not returned. */
  ghost predicate SlotIsCalled<T(!new)>(s: State<T>) {
    s.doRun && s.isAvail && s.isBusy ==> InPickup(s)
  }

  lemma MoveCalls<T(!new)>(s: State<T>, s': State<T>, c: nat)
    requires SlotIsCalled(s) && c < |s.callers| && Elsewhere(s, s', c)
    requires s'.doRun && s'.isAvail && s'.isBusy ==>
               s'.callers[c].at.Pickup? || (s.doRun && s.isAvail && s.isBusy && !s.callers[c].at.Pickup?)
    ensures SlotIsCalled(s')
  {
  }

  lemma StartCalls<T(!new)>(s: State<T>, s': State<T>, c: nat)
    requires SlotIsCalled(s) && c < |s.callers| && s.callers[c].at.Outside? && StartCall(s, s', c)
    ensures SlotIsCalled(s')
  {
    hide SlotIsCalled, Elsewhere, OnlyCaller, NoClose, Move;
    if NoClose(s) && s' == Move(s, c, Waiting(false), false) {
      Moved(s, s, c, Waiting(false), false);
    } else if OnlyCaller(s, c) && s' == Move(s, c, Waiting(true), false) {
      Moved(s, s, c, Waiting(true), false);
    } else {
      var data :| s' == Move(s, c, Slot(data), false);
      Moved(s, s, c, Slot(data), false);
    }
    MoveCalls(s, s', c);
  }

  lemma SlotCalls<T(!new)>(s: State<T>, c: nat, data: T)
    requires SlotIsCalled(s) && c < |s.callers| && s.callers[c].at == Slot(data)
    ensures SlotIsCalled(SlotStep(s, c, data))
  {
    hide SlotIsCalled, Elsewhere, Move, NotifyAll;
    if s.doRun && s.isAvail {
      Moved(s, s, c, Slot(data), true);
    } else if !s.doRun {
      Moved(s, s, c, Outside, false);
    } else {
      var t := s.(isAvail := true, input := Some(data), accepted := s.accepted + [data]);
      Moved(s, t, c, if s.isBusy then Pickup else Notifying, s.isBusy);
    }
    MoveCalls(s, SlotStep(s, c, data), c);
  }

  lemma CallerCalls<T(!new)>(s: State<T>, s': State<T>, c: nat)
    requires SlotIsCalled(s) && c < |s.callers| && CallerStep(s, s', c)
    ensures SlotIsCalled(s')
  {
    hide SlotIsCalled, Elsewhere, Move, NotifyAll, SlotStep, StartCall;
    match s.callers[c].at
    case Outside => StartCalls(s, s', c);
    case Slot(data) => SlotCalls(s, c, data);
    case Pickup =>
      var wait := s.doRun && s.isAvail && s.isBusy;
      Moved(s, s, c, if wait then Pickup else Outside, wait);
      MoveCalls(s, s', c);
    case Waiting(closing) =>
      var wait := s.doRun && (s.isAvail || s.isBusy);
      Moved(s, s, c, if wait then Waiting(closing) else if closing && !s.isFail then Closing else Outside, wait);
      MoveCalls(s, s', c);
    case Closing =>
      Moved(s, s.(doRun := false), c, Notifying, false);
      MoveCalls(s, s', c);
    case Notifying =>
      Moved(s, s, c, Outside, false);
      MoveCalls(s, s', c);
  }

  lemma StepCalls<T(!new)>(s: State<T>, s': State<T>)
    requires Handoff(s) && SlotIsCalled(s) && Next(s, s')
    ensures SlotIsCalled(s')
  {
    hide CallerStep;
    if WorkerStep(s, s') || Spurious(s, s') {
      assert |s'.callers| == |s.callers| && forall i :: 0 <= i < |s.callers| ==> s'.callers[i].at == s.callers[i].at;
    } else {
      var c: nat :| c < |s.callers| && CallerStep(s, s', c);
      CallerCalls(s, s', c);
    }
  }

  lemma {:induction false} RunCalls<T(!new)>(run: seq<State<T>>, k: nat)
    requires Run(run) && k < |run|
    ensures SlotIsCalled(run[k])
  {
    hide Next, Handoff, SlotIsCalled;
    if k > 0 {
      RunCalls(run, k - 1);
      RunKeeps(run, k - 1);
      assert Next(run[k - 1], run[k]);
      StepCalls(run[k - 1], run[k]);
    } else {
      NothingCalled(run[0]);
    }
  }

  lemma NothingCalled<T(!new)>(s: State<T>)
    requires Init(s)
    ensures SlotIsCalled(s)
  {
  }

  /** Once no call of `take` waits for its input to be picked up, at most one input is left to execute. */
  lemma NoTripleBuffering<T(!new)>(run: seq<State<T>>, k: nat)
    requires Run(run) && k < |run| && run[k].doRun
    ensures |run[k].accepted| <= |run[k].executed| + 2
    ensures (forall i :: 0 <= i < |run[k].callers| ==> !run[k].callers[i].at.Pickup?) ==>
              |run[k].accepted| <= |run[k].executed| + 1
  {
    RunKeeps(run, k);
    RunCalls(run, k);
  }

  ghost predicate Idle<T(!new)>(s: State<T>) {
    forall i :: 0 <= i < |s.callers| ==> s.callers[i].at.Outside?
  }

  /** Somebody inside a call or the worker is awake. */
  ghost predicate SomebodyAwake<T(!new)>(s: State<T>) {
    || s.worker.Head? || s.worker.Taken? || s.worker.Running?
    || exists i :: 0 <= i < |s.callers| && !s.callers[i].at.Outside? && !s.callers[i].asleep
  }

  /** No wake-up is lost: while a call is in progress somebody is awake. */
  lemma SomebodyIsAwake<T(!new)>(run: seq<State<T>>, k: nat)
    requires Run(run) && k < |run| && !Idle(run[k])
    ensures SomebodyAwake(run[k])
  {
    RunKeeps(run, k);
  }
}
