/** The queue under any number of threads (queue.c, lines 36-106): one mutex, the condition
    variables not_full and not_empty, and the shutdown flag.  A step is one action of one
    thread, or of the system waking a waiter.  As POSIX.1-2017 allows, a waiter may wake
    without a signal (a timeout looks the same), and a signal wakes at least one waiter. */
module QueueProtocol {
  import opened CStrings
  import opened Event
  import opened AsyncQueue

  type Tid = nat

  /** Where a thread is in the queue's code. */
  datatype Pc =
    | Idle
    | PushEnter(ev: Event)          // about to lock
    | PushTest(ev: Event)           // has the mutex, at the loop condition
    | PushWait(ev: Event)           // in pthread_cond_wait on not_full
    | PushStore(ev: Event)          // has the mutex, past the loop
    | PushSignal                    // stored, about to signal not_empty
    | PushLeave(rc: int)            // about to unlock
    | PushDone(rc: int)
    | PopEnter
    | PopTest
    | PopWait                       // in pthread_cond_(timed)wait on not_empty
    | PopTake                       // has the mutex, past the wait
    | PopSignal(got: Event)         // took an event, about to signal not_full
    | PopLeave(res: Option<Event>)
    | PopDone(res: Option<Event>)
    | StopEnter
    | StopSet
    | StopWakePoppers               // flag set, about to broadcast not_empty
    | StopWakePushers               // about to broadcast not_full
    | StopLeave
    | StopDone
    | CountEnter
    | CountRead
    | CountLeave(c: nat)
    | CountDone(c: nat)

  predicate Entering(pc: Pc) { pc.PushEnter? || pc.PopEnter? || pc.StopEnter? || pc.CountEnter? }

  predicate Holding(pc: Pc)
  {
    || pc.PushTest? || pc.PushStore? || pc.PushSignal? || pc.PushLeave?
    || pc.PopTest? || pc.PopTake? || pc.PopSignal? || pc.PopLeave?
    || pc.StopSet? || pc.StopWakePoppers? || pc.StopWakePushers? || pc.StopLeave?
    || pc.CountRead? || pc.CountLeave?
  }

  predicate Returning(pc: Pc) { pc.PushDone? || pc.PopDone? || pc.StopDone? || pc.CountDone? }

  /** Waiters of one condition variable: not yet woken, and woken but still without the mutex. */
  datatype Waiters = Waiters(asleep: set<Tid>, woken: set<Tid>)

  function Sleep(w: Waiters, t: Tid): Waiters { w.(asleep := w.asleep + {t}) }

  function Rouse(w: Waiters, ts: set<Tid>): Waiters
  {
    Waiters(w.asleep - ts, w.woken + (ts * w.asleep))
  }

  function Resume(w: Waiters, t: Tid): Waiters { w.(woken := w.woken - {t}) }

  /** The shared state; `pushed` and `popped` record what was stored and taken, in order. */
  datatype State = State(
    q: QueueState, owner: Option<Tid>, pcs: map<Tid, Pc>,
    notFull: Waiters, notEmpty: Waiters,
    pushed: seq<Event>, popped: seq<Event>)

  function Init(size: nat, threads: set<Tid>): State
  {
    State(QueueState([], size, false), None, map t | t in threads :: Idle,
          Waiters({}, {}), Waiters({}, {}), [], [])
  }

  datatype Step =
    | Call(t: Tid, entry: Pc)                 // a thread enters a queue function
    | Lock(t: Tid)                            // it gets the mutex, or gets it back after a wait
    | Run(t: Tid, signalled: set<Tid>)        // it does its next action in the critical section
    | Wake(t: Tid)                            // a waiter wakes unsignalled
    | Return(t: Tid)

  /** What a `pthread_cond_signal` may wake: at least one waiter when there is one. */
  predicate SignalWakes(w: Waiters, ts: set<Tid>) { ts <= w.asleep && (w.asleep != {} ==> ts != {}) }

  predicate Enabled(s: State, step: Step)
  {
    match step
    case Call(t, entry) => t in s.pcs && s.pcs[t].Idle? && Entering(entry)
    case Lock(t) =>
      && s.owner.None? && t in s.pcs
      && (Entering(s.pcs[t]) || t in s.notFull.woken || t in s.notEmpty.woken)
    case Run(t, ts) =>
      && s.owner == Some(t) && t in s.pcs
      && (s.pcs[t].PushSignal? ==> SignalWakes(s.notEmpty, ts))
      && (s.pcs[t].PopSignal? ==> SignalWakes(s.notFull, ts))
    case Wake(t) => t in s.notFull.asleep || t in s.notEmpty.asleep
    case Return(t) => t in s.pcs && Returning(s.pcs[t])
  }

  function At(s: State, t: Tid, pc: Pc): State { s.(pcs := s.pcs[t := pc]) }

  /** The thread that gets the mutex goes to its function's first or, after a wait, next test. */
  function Locked(s: State, t: Tid): State
    requires t in s.pcs
  {
    var s1 := s.(owner := Some(t));
    match s.pcs[t]
    case PushEnter(ev) => At(s1, t, PushTest(ev))
    case PushWait(ev) => At(s1.(notFull := Resume(s.notFull, t)), t, PushTest(ev))
    case PopEnter => At(s1, t, PopTest)
    case PopWait => At(s1.(notEmpty := Resume(s.notEmpty, t)), t, PopTake)
    case StopEnter => At(s1, t, StopSet)
    case CountEnter => At(s1, t, CountRead)
    case _ => s1
  }

  /** The next action of the mutex holder. */
  function Ran(s: State, t: Tid, ts: set<Tid>): State
    requires t in s.pcs
  {
    match s.pcs[t]
    case PushTest(ev) =>
      if Full(s.q) && !s.q.shutdown
      then At(s.(owner := None, notFull := Sleep(s.notFull, t)), t, PushWait(ev))
      else At(s, t, PushStore(ev))
    case PushStore(ev) =>
      var (rc, q) := AfterPush(s.q, ev);
      if rc != 0 then At(s, t, PushLeave(rc)) else At(s.(q := q, pushed := s.pushed + [ev]), t, PushSignal)
    case PushSignal => At(s.(notEmpty := Rouse(s.notEmpty, ts)), t, PushLeave(0))
    case PushLeave(rc) => At(s.(owner := None), t, PushDone(rc))
    case PopTest =>
      if s.q.items == [] && !s.q.shutdown
      then At(s.(owner := None, notEmpty := Sleep(s.notEmpty, t)), t, PopWait)
      else At(s, t, PopTake)
    case PopTake =>
      var (rc, res, q) := AfterPop(s.q);
      if rc != 0 then At(s, t, PopLeave(None))
      else At(s.(q := q, popped := s.popped + [res.value]), t, PopSignal(res.value))
    case PopSignal(got) => At(s.(notFull := Rouse(s.notFull, ts)), t, PopLeave(Some(got)))
    case PopLeave(res) => At(s.(owner := None), t, PopDone(res))
    case StopSet => At(s.(q := s.q.(shutdown := true)), t, StopWakePoppers)
    case StopWakePoppers => At(s.(notEmpty := Rouse(s.notEmpty, s.notEmpty.asleep)), t, StopWakePushers)
    case StopWakePushers => At(s.(notFull := Rouse(s.notFull, s.notFull.asleep)), t, StopLeave)
    case StopLeave => At(s.(owner := None), t, StopDone)
    case CountRead => At(s, t, CountLeave(|s.q.items|))
    case CountLeave(c) => At(s.(owner := None), t, CountDone(c))
    case _ => s
  }

  function Next(s: State, step: Step): State
    requires Enabled(s, step)
  {
    match step
    case Call(t, entry) => At(s, t, entry)
    case Lock(t) => Locked(s, t)
    case Run(t, ts) => Ran(s, t, ts)
    case Wake(t) => s.(notFull := Rouse(s.notFull, {t}), notEmpty := Rouse(s.notEmpty, {t}))
    case Return(t) => At(s, t, Idle)
  }

  // --- the invariant --------------------------------------------------------------------------

  function OwnerPc(s: State): Pc
  {
    if s.owner.Some? && s.owner.value in s.pcs then s.pcs[s.owner.value] else Idle
  }

  /** Exactly the threads at a wait are in that condition's waiter sets. */
  ghost predicate PushersAtWait(s: State)
  {
    && s.notFull.asleep !! s.notFull.woken
    && (forall t :: t in s.notFull.asleep + s.notFull.woken <==> t in s.pcs && s.pcs[t].PushWait?)
  }

  ghost predicate PoppersAtWait(s: State)
  {
    && s.notEmpty.asleep !! s.notEmpty.woken
    && (forall t :: t in s.notEmpty.asleep + s.notEmpty.woken <==> t in s.pcs && s.pcs[t].PopWait?)
  }

  ghost predicate WaitersAt(s: State) { PushersAtWait(s) && PoppersAtWait(s) }

  /** Exactly the owner is inside a critical section. */
  ghost predicate MutualExclusion(s: State)
  {
    forall t :: t in s.pcs && Holding(s.pcs[t]) <==> s.owner == Some(t)
  }

  /** The buffer holds what was pushed and not yet popped, within its size. */
  predicate Fifo(s: State)
  {
    s.pushed == s.popped + s.q.items && |s.q.items| <= s.q.size
  }

  /** A pusher past its loop found room, unless it is there because of the shutdown. */
  predicate RoomToStore(s: State)
  {
    OwnerPc(s).PushStore? ==> !Full(s.q) || s.q.shutdown
  }

  /** The holder that will use a free slot, or has made one and not signalled yet. */
  function PusherDue(s: State): nat
  {
    var pc := OwnerPc(s);
    if pc.PushTest? || pc.PushStore? || pc.PopSignal? then 1 else 0
  }

  function PopperDue(s: State): nat
  {
    var pc := OwnerPc(s);
    if pc.PopTest? || pc.PopTake? || pc.PushSignal? then 1 else 0
  }

  /** While a pusher sleeps, every free slot has a pusher that is awake or about to be woken. */
  predicate SlotsCovered(s: State)
  {
    !s.q.shutdown && s.notFull.asleep != {} ==> s.q.size - |s.q.items| <= |s.notFull.woken| + PusherDue(s)
  }

  /** While a popper sleeps, every queued event has a popper that is awake or about to be woken. */
  predicate EventsCovered(s: State)
  {
    !s.q.shutdown && s.notEmpty.asleep != {} ==> |s.q.items| <= |s.notEmpty.woken| + PopperDue(s)
  }

  /** Once shut down and broadcast, nobody sleeps. */
  predicate NobodySleeps(s: State)
  {
    && (s.q.shutdown && !OwnerPc(s).StopWakePoppers? ==> s.notEmpty.asleep == {})
    && (s.q.shutdown && !OwnerPc(s).StopWakePoppers? && !OwnerPc(s).StopWakePushers? ==> s.notFull.asleep == {})
  }

  /** The broadcasting thread has set the flag. */
  predicate FlagBeforeBroadcast(s: State)
  {
    OwnerPc(s).StopWakePoppers? || OwnerPc(s).StopWakePushers? || OwnerPc(s).StopLeave? ==> s.q.shutdown
  }

  ghost predicate Inv(s: State)
  {
    && WaitersAt(s) && MutualExclusion(s) && Fifo(s) && RoomToStore(s)
    && SlotsCovered(s) && EventsCovered(s) && NobodySleeps(s) && FlagBeforeBroadcast(s)
  }

  lemma InitInv(size: nat, threads: set<Tid>)
    ensures Inv(Init(size, threads))
  {
  }

  lemma RouseCounts(w: Waiters, ts: set<Tid>)
    requires w.asleep !! w.woken
    ensures |Rouse(w, ts).woken| == |w.woken| + |ts * w.asleep|
    ensures Rouse(w, ts).asleep !! Rouse(w, ts).woken
  {
    assert w.woken !! ts * w.asleep;
  }

  lemma RunPushersAtWait(s: State, t: Tid, ts: set<Tid>)
    requires PushersAtWait(s) && MutualExclusion(s) && Enabled(s, Run(t, ts))
    ensures PushersAtWait(Ran(s, t, ts))
  {
    hide Full, AfterPush, AfterPop;
  }

  lemma NextPushersAtWait(s: State, step: Step)
    requires WaitersAt(s) && MutualExclusion(s) && Enabled(s, step)
    ensures PushersAtWait(Next(s, step))
  {
    hide Ran;
    if step.Run? {
      RunPushersAtWait(s, step.t, step.signalled);
    }
  }

  lemma RunPoppersAtWait(s: State, t: Tid, ts: set<Tid>)
    requires PoppersAtWait(s) && MutualExclusion(s) && Enabled(s, Run(t, ts))
    ensures PoppersAtWait(Ran(s, t, ts))
  {
    hide Full, AfterPush, AfterPop;
  }

  lemma NextPoppersAtWait(s: State, step: Step)
    requires WaitersAt(s) && MutualExclusion(s) && Enabled(s, step)
    ensures PoppersAtWait(Next(s, step))
  {
    hide Ran;
    if step.Run? {
      RunPoppersAtWait(s, step.t, step.signalled);
    }
  }

  lemma RunExclusion(s: State, t: Tid, ts: set<Tid>)
    requires MutualExclusion(s) && Enabled(s, Run(t, ts))
    ensures MutualExclusion(Ran(s, t, ts))
  {
    hide Full, AfterPush, AfterPop, Rouse;
  }

  lemma NextExclusion(s: State, step: Step)
    requires WaitersAt(s) && MutualExclusion(s) && Enabled(s, step)
    ensures MutualExclusion(Next(s, step))
  {
    hide Ran;
    match step
    case Lock(t) =>
    case Run(t, ts) => RunExclusion(s, t, ts);
    case Wake(t) =>
    case Call(t, _) =>
    case Return(t) =>
  }

  lemma NextFifo(s: State, step: Step)
    requires MutualExclusion(s) && Fifo(s) && RoomToStore(s) && Enabled(s, step)
    ensures Fifo(Next(s, step)) && RoomToStore(Next(s, step))
  {
  }

  lemma ResumeCounts(w: Waiters, t: Tid)
    requires t in w.woken
    ensures |Resume(w, t).woken| == |w.woken| - 1 && Resume(w, t).asleep == w.asleep
  {
  }

  lemma SignalCounts(w: Waiters, ts: set<Tid>)
    requires w.asleep !! w.woken && SignalWakes(w, ts) && w.asleep != {}
    ensures |Rouse(w, ts).woken| >= |w.woken| + 1 && Rouse(w, ts).asleep <= w.asleep
  {
    RouseCounts(w, ts);
    assert ts * w.asleep == ts;
    assert |ts| > 0;
  }

  lemma RouseAll(w: Waiters)
    ensures Rouse(w, w.asleep).asleep == {}
  {
  }

  lemma WakeCounts(w: Waiters, t: Tid)
    requires w.asleep !! w.woken
    ensures |Rouse(w, {t}).woken| >= |w.woken| && Rouse(w, {t}).asleep <= w.asleep
  {
    RouseCounts(w, {t});
  }

  /** A waiter that gets the mutex back has been woken. */
  lemma WokenWaiter(s: State, t: Tid)
    requires WaitersAt(s) && Enabled(s, Lock(t))
    ensures s.pcs[t].PushWait? ==> t in s.notFull.woken
    ensures s.pcs[t].PopWait? ==> t in s.notEmpty.woken
  {
  }

  lemma SlotsLock(s: State, t: Tid)
    requires WaitersAt(s) && SlotsCovered(s) && Enabled(s, Lock(t))
    ensures SlotsCovered(Locked(s, t))
  {
    WokenWaiter(s, t);
    hide WaitersAt;
    assert PusherDue(s) == 0;
    if s.pcs[t].PushWait? {
      ResumeCounts(s.notFull, t);
      assert Locked(s, t).notFull == Resume(s.notFull, t);
    } else {
      assert Locked(s, t).notFull == s.notFull;
    }
  }

  lemma SlotsRun(s: State, t: Tid, ts: set<Tid>)
    requires s.notFull.asleep !! s.notFull.woken
    requires RoomToStore(s) && SlotsCovered(s) && Enabled(s, Run(t, ts))
    ensures SlotsCovered(Ran(s, t, ts))
  {
    hide Ran;
    match s.pcs[t]
    case PushTest(_) => SlotsTest(s, t, ts);
    case PopSignal(_) => SlotsWake(s, t, ts);
    case StopWakePushers => SlotsWake(s, t, ts);
    case _ => SlotsKept(s, t, ts);
  }

  lemma SlotsTest(s: State, t: Tid, ts: set<Tid>)
    requires Enabled(s, Run(t, ts)) && SlotsCovered(s) && s.pcs[t].PushTest?
    ensures SlotsCovered(Ran(s, t, ts))
  {
    hide SignalWakes;
  }

  /** A signal wakes a pusher for the slot it was made for; the broadcast wakes them all. */
  lemma SlotsWake(s: State, t: Tid, ts: set<Tid>)
    requires s.notFull.asleep !! s.notFull.woken && SlotsCovered(s) && Enabled(s, Run(t, ts))
    requires s.pcs[t].PopSignal? || s.pcs[t].StopWakePushers?
    ensures SlotsCovered(Ran(s, t, ts))
  {
    RouseAll(s.notFull);
    if s.notFull.asleep != {} && s.pcs[t].PopSignal? { SignalCounts(s.notFull, ts); }
    hide Rouse, SignalWakes;
  }

  /** The actions that leave the waiting pushers alone. */
  lemma SlotsKept(s: State, t: Tid, ts: set<Tid>)
    requires Enabled(s, Run(t, ts)) && RoomToStore(s) && SlotsCovered(s)
    requires !s.pcs[t].PopSignal? && !s.pcs[t].StopWakePushers? && !s.pcs[t].PushTest?
    ensures SlotsCovered(Ran(s, t, ts))
  {
    hide Rouse, SignalWakes, Sleep;
    assert OwnerPc(s) == s.pcs[t];
    assert Ran(s, t, ts).notFull == s.notFull;
  }

  /** Calling, returning and waking leave the mutex holder where it is. */
  lemma HolderStays(s: State, step: Step)
    requires MutualExclusion(s) && Enabled(s, step) && !step.Lock? && !step.Run?
    ensures OwnerPc(Next(s, step)) == OwnerPc(s)
  {
  }

  lemma NextSlots(s: State, step: Step)
    requires WaitersAt(s) && MutualExclusion(s) && RoomToStore(s) && SlotsCovered(s) && Enabled(s, step)
    ensures SlotsCovered(Next(s, step))
  {
    hide Ran, Locked, MutualExclusion, OwnerPc, PoppersAtWait, RoomToStore;
    match step
    case Lock(t) => SlotsLock(s, t);
    case Run(t, ts) => SlotsRun(s, t, ts);
    case Wake(t) => HolderStays(s, step); WakeCounts(s.notFull, t);
    case _ => HolderStays(s, step);
  }

  lemma EventsLock(s: State, t: Tid)
    requires WaitersAt(s) && EventsCovered(s) && Enabled(s, Lock(t))
    ensures EventsCovered(Locked(s, t))
  {
    WokenWaiter(s, t);
    hide WaitersAt;
    assert PopperDue(s) == 0;
    if s.pcs[t].PopWait? {
      ResumeCounts(s.notEmpty, t);
      assert Locked(s, t).notEmpty == Resume(s.notEmpty, t);
    } else {
      assert Locked(s, t).notEmpty == s.notEmpty;
    }
  }

  lemma EventsRun(s: State, t: Tid, ts: set<Tid>)
    requires s.notEmpty.asleep !! s.notEmpty.woken && EventsCovered(s) && Enabled(s, Run(t, ts))
    ensures EventsCovered(Ran(s, t, ts))
  {
    RouseAll(s.notEmpty);
    if s.notEmpty.asleep != {} && s.pcs[t].PushSignal? { SignalCounts(s.notEmpty, ts); }
    hide Rouse, SignalWakes;
    assert OwnerPc(s) == s.pcs[t];
    var pc, n := s.pcs[t], Ran(s, t, ts);
    if pc.PushSignal? {
      assert n.notEmpty == Rouse(s.notEmpty, ts);
    } else if pc.StopWakePoppers? {
      assert n.notEmpty.asleep == {};
    } else if !pc.PopTest? {
      assert n.notEmpty == s.notEmpty;
    }
  }

  lemma NextEvents(s: State, step: Step)
    requires WaitersAt(s) && MutualExclusion(s) && EventsCovered(s) && Enabled(s, step)
    ensures EventsCovered(Next(s, step))
  {
    hide Ran, Locked, MutualExclusion, OwnerPc, PushersAtWait;
    match step
    case Lock(t) => EventsLock(s, t);
    case Run(t, ts) => EventsRun(s, t, ts);
    case Wake(t) => HolderStays(s, step); WakeCounts(s.notEmpty, t);
    case _ => HolderStays(s, step);
  }

  lemma NextShutdown(s: State, step: Step)
    requires MutualExclusion(s) && NobodySleeps(s) && FlagBeforeBroadcast(s) && Enabled(s, step)
    ensures NobodySleeps(Next(s, step)) && FlagBeforeBroadcast(Next(s, step))
  {
  }

  lemma NextInv(s: State, step: Step)
    requires Inv(s) && Enabled(s, step)
    ensures Inv(Next(s, step))
  {
    hide Next, Enabled, PushersAtWait, PoppersAtWait, MutualExclusion, Fifo, RoomToStore;
    hide SlotsCovered, EventsCovered, NobodySleeps, FlagBeforeBroadcast;
    NextPushersAtWait(s, step);
    NextPoppersAtWait(s, step);
    NextExclusion(s, step);
    NextFifo(s, step);
    NextSlots(s, step);
    NextEvents(s, step);
    NextShutdown(s, step);
  }

  // --- runs ---------------------------------------------------------------------------------------

  predicate ValidRun(s: State, steps: seq<Step>)
    decreases |steps|
  {
    steps == [] || (Enabled(s, steps[0]) && ValidRun(Next(s, steps[0]), steps[1..]))
  }

  function Final(s: State, steps: seq<Step>): State
    requires ValidRun(s, steps)
    decreases |steps|
  {
    if steps == [] then s else Final(Next(s, steps[0]), steps[1..])
  }

  lemma {:induction false} RunOne(s: State, a: Step)
    requires Enabled(s, a)
    ensures ValidRun(s, [a]) && Final(s, [a]) == Next(s, a)
  {
    assert [a][1..] == [];
  }

  lemma {:induction false} RunTwo(s: State, a: Step, b: Step)
    requires Enabled(s, a) && Enabled(Next(s, a), b)
    ensures ValidRun(s, [a, b]) && Final(s, [a, b]) == Next(Next(s, a), b)
  {
    assert [a, b][1..] == [b];
    RunOne(Next(s, a), b);
  }

  lemma {:induction false} RunInv(s: State, steps: seq<Step>)
    requires Inv(s) && ValidRun(s, steps)
    ensures Inv(Final(s, steps))
    decreases |steps|
  {
    if steps != [] {
      NextInv(s, steps[0]);
      RunInv(Next(s, steps[0]), steps[1..]);
    }
  }

  /** No wakeup is lost, in any run of any threads: whenever the mutex is free before a
      shutdown, sleeping pushers mean that woken ones account for every free slot, and
      sleeping poppers that woken ones account for every queued event.  So pushers and
      poppers are never all asleep together. */
  lemma {:induction false} NoLostWakeup(size: nat, threads: set<Tid>, steps: seq<Step>)
    requires size > 0 && ValidRun(Init(size, threads), steps)
    ensures var s := Final(Init(size, threads), steps);
            s.owner.None? && !s.q.shutdown ==>
              && (s.notFull.asleep != {} ==> s.q.size - |s.q.items| <= |s.notFull.woken|)
              && (s.notEmpty.asleep != {} ==> |s.q.items| <= |s.notEmpty.woken|)
              && (s.notFull.asleep != {} && s.notEmpty.asleep != {} ==> s.notFull.woken + s.notEmpty.woken != {})
  {
    InitInv(size, threads);
    RunInv(Init(size, threads), steps);
    RunKeepsSize(Init(size, threads), steps);
  }

  lemma {:induction false} RunKeepsSize(s: State, steps: seq<Step>)
    requires ValidRun(s, steps)
    ensures Final(s, steps).q.size == s.q.size && Final(s, steps).pcs.Keys == s.pcs.Keys
    ensures s.q.shutdown ==> Final(s, steps).q.shutdown
    decreases |steps|
  {
    if steps != [] {
      NextKeepsSize(s, steps[0]);
      RunKeepsSize(Next(s, steps[0]), steps[1..]);
    }
  }

  lemma NextKeepsSize(s: State, step: Step)
    requires Enabled(s, step)
    ensures Next(s, step).q.size == s.q.size
    ensures Next(s, step).pcs.Keys == s.pcs.Keys
    ensures s.q.shutdown ==> Next(s, step).q.shutdown
  {
  }

  /** First in, first out, over any interleaving: what was popped is a prefix of what was
      pushed, the rest is in the buffer in order, and the buffer never overflows. */
  lemma {:induction false} FirstInFirstOut(size: nat, threads: set<Tid>, steps: seq<Step>)
    requires ValidRun(Init(size, threads), steps)
    ensures var s := Final(Init(size, threads), steps);
            s.popped <= s.pushed && s.q.items == s.pushed[|s.popped|..] && |s.q.items| <= size
  {
    InitInv(size, threads);
    RunInv(Init(size, threads), steps);
    RunKeepsSize(Init(size, threads), steps);
  }

  /** Nobody is asleep and the flag is set: the state a shutdown leaves. */
  predicate Released(s: State) { s.q.shutdown && s.notFull.asleep == {} && s.notEmpty.asleep == {} }

  lemma ShutdownStep(s: State, step: Step)
    requires s.q.shutdown && Enabled(s, step)
    ensures Next(s, step).q == s.q
    ensures Next(s, step).pushed == s.pushed && Next(s, step).popped == s.popped
    ensures Next(s, step).notFull.asleep <= s.notFull.asleep && Next(s, step).notEmpty.asleep <= s.notEmpty.asleep
  {
  }

  /** After the shutdown flag is set nothing is stored or taken any more, and no thread
      falls asleep. */
  lemma {:induction false} ShutdownFreezes(s: State, steps: seq<Step>)
    requires s.q.shutdown && ValidRun(s, steps)
    ensures var f := Final(s, steps);
            && f.q == s.q && f.pushed == s.pushed && f.popped == s.popped
            && f.notFull.asleep <= s.notFull.asleep && f.notEmpty.asleep <= s.notEmpty.asleep
    decreases |steps|
  {
    if steps != [] {
      ShutdownStep(s, steps[0]);
      ShutdownFreezes(Next(s, steps[0]), steps[1..]);
    }
  }

  lemma {:induction false} RunSplits(s: State, first: seq<Step>, second: seq<Step>)
    requires ValidRun(s, first + second)
    ensures ValidRun(s, first) && ValidRun(Final(s, first), second)
    ensures Final(s, first + second) == Final(Final(s, first), second)
    decreases |first|
  {
    if first == [] {
      assert first + second == second;
    } else {
      assert (first + second)[1..] == first[1..] + second;
      RunSplits(Next(s, first[0]), first[1..], second);
    }
  }

  /** When the thread that shuts the queue down is about to unlock, its broadcasts have
      released every sleeper, and nobody sleeps in any continuation. */
  lemma {:induction false} ShutdownReleases(size: nat, threads: set<Tid>, steps: seq<Step>, more: seq<Step>)
    requires ValidRun(Init(size, threads), steps + more)
    ensures ValidRun(Init(size, threads), steps)
    ensures OwnerPc(Final(Init(size, threads), steps)).StopLeave? ==> Released(Final(Init(size, threads), steps + more))
  {
    var s0 := Init(size, threads);
    RunSplits(s0, steps, more);
    InitInv(size, threads);
    RunInv(s0, steps);
    var s := Final(s0, steps);
    if OwnerPc(s).StopLeave? {
      ShutdownFreezes(s, more);
    }
  }

  /** A push in progress or done has succeeded, or was refused after a shutdown. */
  ghost predicate PushResults(s: State)
  {
    forall t | t in s.pcs ::
      match s.pcs[t]
      case PushLeave(rc) => rc == 0 || (rc == -1 && s.q.shutdown)
      case PushDone(rc) => rc == 0 || (rc == -1 && s.q.shutdown)
      case _ => true
  }

  /** `queue_push` reports failure only after a shutdown, in any run. */
  lemma {:induction false} PushFailsOnlyAfterShutdown(s: State, steps: seq<Step>)
    requires PushResults(s) && ValidRun(s, steps)
    ensures PushResults(Final(s, steps))
    decreases |steps|
  {
    if steps != [] {
      PushFailsOnlyAfterShutdown(Next(s, steps[0]), steps[1..]);
    }
  }

  // --- a pop waits at most once -------------------------------------------------------------------

  /** How far a thread has come in queue_pop. */
  function PopStage(pc: Pc): nat
  {
    match pc
    case PopEnter => 1
    case PopTest => 2
    case PopWait => 3
    case PopTake => 4
    case PopSignal(_) => 5
    case PopLeave(_) => 6
    case PopDone(_) => 7
    case _ => 0
  }

  /** The steps that are this thread's own. */
  function OwnSteps(steps: seq<Step>, t: Tid): nat
  {
    if steps == [] then 0 else (if Own(steps[0], t) then 1 else 0) + OwnSteps(steps[1..], t)
  }

  predicate Own(step: Step, t: Tid) { (step.Lock? || step.Run? || step.Return? || step.Call?) && step.t == t }

  lemma PopRuns(s: State, t: Tid, ts: set<Tid>)
    requires MutualExclusion(s) && Enabled(s, Run(t, ts)) && PopStage(s.pcs[t]) > 0
    ensures t in Ran(s, t, ts).pcs && PopStage(Ran(s, t, ts).pcs[t]) > PopStage(s.pcs[t])
  {
    assert Holding(s.pcs[t]);
    hide MutualExclusion, Rouse, Sleep, Full, AfterPush;
  }

  lemma RunsAlone(s: State, t: Tid, ts: set<Tid>, other: Tid)
    requires Enabled(s, Run(t, ts)) && other in s.pcs && other != t
    ensures other in Ran(s, t, ts).pcs && Ran(s, t, ts).pcs[other] == s.pcs[other]
  {
    hide Rouse, Sleep, Full, AfterPush, AfterPop;
  }

  lemma PopAdvances(s: State, step: Step, t: Tid)
    requires WaitersAt(s) && MutualExclusion(s)
    requires Enabled(s, step) && t in s.pcs && PopStage(s.pcs[t]) > 0 && step != Return(t)
    ensures t in Next(s, step).pcs
    ensures var n := PopStage(Next(s, step).pcs[t]);
            if Own(step, t) then n > PopStage(s.pcs[t]) else n == PopStage(s.pcs[t])
  {
    hide Rouse, Sleep, Ran;
    if step.Run? {
      if step.t == t { PopRuns(s, t, step.signalled); } else { RunsAlone(s, step.t, step.signalled, t); }
    }
  }

  /** In any run a thread that is in queue_pop only moves forward until it returns: each of its own
      steps takes it further, so it waits at most once and makes at most six steps. */
  lemma {:induction false} PopWaitsOnce(s: State, steps: seq<Step>, t: Tid)
    requires Inv(s) && ValidRun(s, steps) && t in s.pcs && PopStage(s.pcs[t]) > 0 && Return(t) !in steps
    ensures var f := Final(s, steps);
            && t in f.pcs && PopStage(s.pcs[t]) + OwnSteps(steps, t) <= PopStage(f.pcs[t]) <= 7
            && OwnSteps(steps, t) <= 6
            && (s.pcs[t].PopWait? && OwnSteps(steps, t) > 0 ==> !f.pcs[t].PopWait?)
    decreases |steps|
  {
    hide Inv, Enabled, Next;
    if steps != [] {
      assert steps[0] in steps && forall x | x in steps[1..] :: x in steps;
      InvHasWaiters(s);
      PopAdvances(s, steps[0], t);
      NextInv(s, steps[0]);
      PopWaitsOnce(Next(s, steps[0]), steps[1..], t);
    }
  }

  lemma InvHasWaiters(s: State)
    requires Inv(s)
    ensures WaitersAt(s) && MutualExclusion(s)
  {
  }
}
