/** The whole auditor process (main.c): the main thread produces events, logs them and stops;
    the worker pops them and posts each at most three times; a signal may clear the running
    flag at any moment.  Both threads use the queue through QueueProtocol. */
module Pipeline {
  import opened CStrings
  import opened Event
  import opened AsyncQueue
  import P = QueueProtocol

  const MAIN: P.Tid := 0
  const WORKER: P.Tid := 1
  const RETRIES: nat := 3

  /** The main thread: capturing events, then clearing the flag, shutting down and joining. */
  datatype MainPc =
    | Producing
    | Pushing(ev: Event)
    | Logging(ev: Event)
    | Stopping
    | Joining
    | Joined

  /** The worker thread: testing the flag, testing the count, popping, posting. */
  datatype WorkerPc =
    | Looping
    | Counting
    | Popping
    | Posting(ev: Event, retries: nat)
    | Exited

  /** `interrupted` records that a signal, not the stop sequence, cleared the flag; `finished`
      the events the worker is done with, `commits` the posts that reached the ledger, `counts`
      how many of these each finished event had and `current` how many the one in hand has. */
  datatype System = System(
    p: P.State, main: MainPc, worker: WorkerPc, running: bool, interrupted: bool,
    log: seq<Event>, finished: seq<Event>, commits: seq<Event>, counts: seq<nat>, current: nat)

  function Start(size: nat): System
  {
    System(P.Init(size, {MAIN, WORKER}), Producing, Looping, true, false, [], [], [], [], 0)
  }

  datatype Action =
    | Queue(step: P.Step)            // a step inside a queue function
    | Produce(ev: Event)             // an event is captured: queue_push is called
    | PushReturns
    | WriteLog
    | ClearFlag                      // no more events: g_running = 0, queue_shutdown is called
    | ShutdownReturns
    | Join
    | Signal                         // SIGINT
    | TestRunning                    // the worker's loop condition, first half
    | CountReturns                   // second half
    | PopReturns
    | Post(committed: bool, reported: bool)   // one attempt; both outcomes are the network's

  predicate Inner(step: P.Step) { step.Lock? || step.Run? || step.Wake? }

  predicate Enabled(s: System, a: Action)
    requires {MAIN, WORKER} <= s.p.pcs.Keys
  {
    match a
    case Queue(step) => Inner(step) && P.Enabled(s.p, step)
    case Produce(_) => s.main.Producing? && s.p.pcs[MAIN].Idle?
    case PushReturns => s.main.Pushing? && s.p.pcs[MAIN].PushDone?
    case WriteLog => s.main.Logging?
    case ClearFlag => s.main.Producing? && s.p.pcs[MAIN].Idle?
    case ShutdownReturns => s.main.Stopping? && s.p.pcs[MAIN].StopDone?
    case Join => s.main.Joining? && s.worker.Exited?
    case Signal => true
    case TestRunning => s.worker.Looping? && s.p.pcs[WORKER].Idle?
    case CountReturns => s.worker.Counting? && s.p.pcs[WORKER].CountDone?
    case PopReturns => s.worker.Popping? && s.p.pcs[WORKER].PopDone?
    case Post(_, _) => s.worker.Posting?
  }

  function Next(s: System, a: Action): System
    requires {MAIN, WORKER} <= s.p.pcs.Keys && Enabled(s, a)
  {
    match a
    case Queue(step) => s.(p := P.Next(s.p, step))
    case Produce(ev) => s.(p := P.At(s.p, MAIN, P.PushEnter(ev)), main := Pushing(ev))
    case PushReturns => s.(p := P.At(s.p, MAIN, P.Idle), main := Logging(s.main.ev))
    case WriteLog => s.(log := s.log + [s.main.ev], main := Producing)
    case ClearFlag => s.(running := false, p := P.At(s.p, MAIN, P.StopEnter), main := Stopping)
    case ShutdownReturns => s.(p := P.At(s.p, MAIN, P.Idle), main := Joining)
    case Join => s.(main := Joined)
    case Signal => s.(running := false, interrupted := s.interrupted || s.running)
    case TestRunning =>
      if s.running then s.(p := P.At(s.p, WORKER, P.PopEnter), worker := Popping)
      else s.(p := P.At(s.p, WORKER, P.CountEnter), worker := Counting)
    case CountReturns =>
      if s.p.pcs[WORKER].c > 0 then s.(p := P.At(s.p, WORKER, P.PopEnter), worker := Popping)
      else s.(p := P.At(s.p, WORKER, P.Idle), worker := Exited)
    case PopReturns =>
      var res := s.p.pcs[WORKER].res;
      s.(p := P.At(s.p, WORKER, P.Idle), worker := if res.None? then Looping else Posting(res.value, RETRIES))
    case Post(committed, reported) =>
      var ev := s.worker.ev;
      var n := if committed then s.current + 1 else s.current;
      var s1 := s.(commits := if committed then s.commits + [ev] else s.commits);
      if reported || s.worker.retries <= 1
      then s1.(finished := s.finished + [ev], counts := s.counts + [n], current := 0, worker := Looping)
      else s1.(current := n, worker := Posting(ev, s.worker.retries - 1))
  }

  // --- the invariant ----------------------------------------------------------------------------

  predicate PushingPc(pc: P.Pc, ev: Event)
  {
    || pc == P.PushEnter(ev) || pc == P.PushTest(ev) || pc == P.PushWait(ev) || pc == P.PushStore(ev)
    || StoredPc(pc)
  }

  predicate StoredPc(pc: P.Pc) { pc == P.PushSignal || pc == P.PushLeave(0) || pc == P.PushDone(0) }

  predicate FlagSetPc(pc: P.Pc)
  {
    pc.StopWakePoppers? || pc.StopWakePushers? || pc.StopLeave? || pc.StopDone?
  }

  predicate StoppingPc(pc: P.Pc) { pc.StopEnter? || pc.StopSet? || FlagSetPc(pc) }

  predicate CountingPc(pc: P.Pc) { pc.CountEnter? || pc.CountRead? || pc.CountLeave? || pc.CountDone? }

  predicate PoppingPc(pc: P.Pc)
  {
    pc.PopEnter? || pc.PopTest? || pc.PopWait? || pc.PopTake? || pc.PopSignal? || pc.PopLeave? || pc.PopDone?
  }

  /** Each thread is in the queue function its own code says. */
  predicate Agrees(s: System)
  {
    && s.p.pcs.Keys == {MAIN, WORKER}
    && (match s.main
        case Pushing(ev) => PushingPc(s.p.pcs[MAIN], ev)
        case Stopping => StoppingPc(s.p.pcs[MAIN])
        case _ => s.p.pcs[MAIN] == P.Idle)
    && (match s.worker
        case Counting => CountingPc(s.p.pcs[WORKER])
        case Popping => PoppingPc(s.p.pcs[WORKER])
        case _ => s.p.pcs[WORKER] == P.Idle)
  }

  predicate PastStop(m: MainPc) { m.Stopping? || m.Joining? || m.Joined? }

  /** The shutdown flag is set in the stop sequence, after the running flag is cleared, and
      only a signal clears that earlier. */
  predicate Flags(s: System)
    requires Agrees(s)
  {
    && (s.p.q.shutdown <==> s.main.Joining? || s.main.Joined? || (s.main.Stopping? && FlagSetPc(s.p.pcs[MAIN])))
    && (PastStop(s.main) ==> !s.running)
    && (!s.running && !s.interrupted ==> PastStop(s.main))
    && (s.worker.Counting? || s.worker.Exited? ==> !s.running)
    && (s.main.Joined? ==> s.worker.Exited?)
  }

  /** The event popped and not finished, if any. */
  function InFlight(s: System): seq<Event>
    requires Agrees(s)
  {
    if s.worker.Posting? then [s.worker.ev] else
    match s.p.pcs[WORKER]
    case PopSignal(ev) => [ev]
    case PopLeave(Some(ev)) => [ev]
    case PopDone(Some(ev)) => [ev]
    case _ => []
  }

  /** Everything popped is finished or in flight. */
  predicate Accounted(s: System)
    requires Agrees(s)
  {
    s.p.popped == s.finished + InFlight(s)
  }

  /** The log is what was pushed, except for an event stored in the queue and not yet logged. */
  predicate Logged(s: System)
    requires Agrees(s)
  {
    if s.main.Logging? || (s.main.Pushing? && StoredPc(s.p.pcs[MAIN]))
    then s.p.pushed == s.log + [s.main.ev]
    else s.p.pushed == s.log
  }

  /** The worker's count may be too low, but not unless interrupted: then it counts, and leaves,
      only when nothing is pushed any more. */
  predicate Counts(s: System)
    requires Agrees(s)
  {
    && (CountTaken(s.p.pcs[WORKER]) ==>
          s.p.pcs[WORKER].c <= |s.p.q.items| && (!s.interrupted ==> s.p.pcs[WORKER].c == |s.p.q.items|))
    && (s.worker.Exited? && !s.interrupted ==> s.p.q.items == [])
  }

  predicate CountTaken(pc: P.Pc) { pc.CountLeave? || pc.CountDone? }

  /** The worker has left its loop or is about to: it has counted no events. */
  predicate Leaving(s: System)
    requires Agrees(s)
  {
    s.worker.Exited? || (CountTaken(s.p.pcs[WORKER]) && s.p.pcs[WORKER].c == 0)
  }

  function Copies(ev: Event, n: nat): (r: seq<Event>)
    ensures |r| == n && forall e | e in r :: e == ev
  {
    if n == 0 then [] else Copies(ev, n - 1) + [ev]
  }

  /** Each event as often as the count beside it says. */
  function Repeated(evs: seq<Event>, counts: seq<nat>): seq<Event>
    requires |evs| == |counts|
  {
    if evs == [] then []
    else
      var n := |evs| - 1;
      Repeated(evs[..n], counts[..n]) + Copies(evs[n], counts[n])
  }

  /** The posts that reached the ledger are the finished events in order, each at most three
      times, followed by those of the event in hand. */
  predicate Attempts(s: System) { Tally(s.worker, s.finished, s.counts, s.commits, s.current) }

  predicate Tally(w: WorkerPc, finished: seq<Event>, counts: seq<nat>, commits: seq<Event>, current: nat)
  {
    && |counts| == |finished| && (forall i | 0 <= i < |counts| :: counts[i] <= RETRIES)
    && (if w.Posting? then 1 <= w.retries <= RETRIES && current <= RETRIES - w.retries else current == 0)
    && commits == Repeated(finished, counts) + if w.Posting? then Copies(w.ev, current) else []
  }

  ghost predicate Inv(s: System)
  {
    && P.Inv(s.p) && s.p.q.size > 0
    && Agrees(s) && Flags(s) && Accounted(s) && Logged(s) && Counts(s) && Attempts(s)
  }

  lemma StartInv(size: nat)
    requires size > 0
    ensures Inv(Start(size))
  {
    P.InitInv(size, {MAIN, WORKER});
  }

  /** Every action is, for the queue, nothing or one of its steps. */
  function QueueSteps(s: System, a: Action): seq<P.Step>
    requires Agrees(s) && Enabled(s, a)
  {
    match a
    case Queue(step) => [step]
    case Produce(ev) => [P.Call(MAIN, P.PushEnter(ev))]
    case PushReturns => [P.Return(MAIN)]
    case ClearFlag => [P.Call(MAIN, P.StopEnter)]
    case ShutdownReturns => [P.Return(MAIN)]
    case TestRunning => [P.Call(WORKER, if s.running then P.PopEnter else P.CountEnter)]
    case CountReturns =>
      if s.p.pcs[WORKER].c > 0 then [P.Return(WORKER), P.Call(WORKER, P.PopEnter)] else [P.Return(WORKER)]
    case PopReturns => [P.Return(WORKER)]
    case _ => []
  }

  lemma ActionsAreSteps(s: System, a: Action)
    requires Agrees(s) && Enabled(s, a)
    ensures P.ValidRun(s.p, QueueSteps(s, a)) && P.Final(s.p, QueueSteps(s, a)) == Next(s, a).p
  {
    var steps := QueueSteps(s, a);
    if |steps| == 1 {
      P.RunOne(s.p, steps[0]);
    } else if |steps| == 2 {
      assert s.p.pcs[WORKER := P.Idle][WORKER := P.PopEnter] == s.p.pcs[WORKER := P.PopEnter];
      P.RunTwo(s.p, steps[0], steps[1]);
    }
  }

  lemma QueueInv(s: System, a: Action)
    requires P.Inv(s.p) && Agrees(s) && Enabled(s, a)
    ensures P.Inv(Next(s, a).p)
  {
    hide P.Inv;
    ActionsAreSteps(s, a);
    P.RunInv(s.p, QueueSteps(s, a));
  }

  /** The thread an inner queue step moves. */
  function Mover(step: P.Step): P.Tid
    requires Inner(step)
  {
    match step
    case Lock(t) => t
    case Run(t, _) => t
    case Wake(t) => t
  }

  predicate OnlyWaitersMove(p: P.State, p': P.State)
  {
    p' == p.(notFull := p'.notFull, notEmpty := p'.notEmpty)
  }

  lemma OnlyTwo(s: System, step: P.Step)
    requires Agrees(s) && Enabled(s, Queue(step))
    ensures Mover(step) in {MAIN, WORKER} || (step.Wake? && OnlyWaitersMove(s.p, P.Next(s.p, step)))
  {
  }

  /** A queue step of the main thread moves nothing of the worker's and takes nothing. */
  lemma MainStep(s: System, step: P.Step)
    requires Agrees(s) && Enabled(s, Queue(step)) && Mover(step) == MAIN
    ensures var p := P.Next(s.p, step);
            WORKER in p.pcs && p.pcs[WORKER] == s.p.pcs[WORKER] && p.popped == s.p.popped
  {
  }

  /** A queue step of the worker moves nothing of the main thread's, adds nothing and never
      sets the flag. */
  lemma WorkerStep(s: System, step: P.Step)
    requires Agrees(s) && Enabled(s, Queue(step)) && Mover(step) == WORKER
    ensures var p := P.Next(s.p, step);
            && MAIN in p.pcs && p.pcs[MAIN] == s.p.pcs[MAIN]
            && p.pushed == s.p.pushed && p.q.shutdown == s.p.q.shutdown
  {
  }

  lemma MainAgrees(s: System, step: P.Step)
    requires Agrees(s) && Flags(s)
    requires Enabled(s, Queue(step)) && Mover(step) == MAIN
    ensures Agrees(Next(s, Queue(step)))
  {
  }

  lemma WorkerAgrees(s: System, step: P.Step)
    requires Agrees(s) && Flags(s)
    requires Enabled(s, Queue(step)) && Mover(step) == WORKER
    ensures Agrees(Next(s, Queue(step)))
  {
  }

  lemma NextAgrees(s: System, a: Action)
    requires Agrees(s) && Flags(s) && Enabled(s, a)
    ensures Agrees(Next(s, a))
  {
    hide P.Next, P.Enabled;
    if a.Queue? {
      OnlyTwo(s, a.step);
      if Mover(a.step) == MAIN { MainAgrees(s, a.step); }
      if Mover(a.step) == WORKER { WorkerAgrees(s, a.step); }
    }
  }

  lemma MainFlags(s: System, step: P.Step)
    requires Agrees(s) && Flags(s)
    requires Enabled(s, Queue(step)) && Mover(step) == MAIN
    ensures Agrees(Next(s, Queue(step))) && Flags(Next(s, Queue(step)))
  {
    MainAgrees(s, step);
  }

  lemma WorkerFlags(s: System, step: P.Step)
    requires Agrees(s) && Flags(s)
    requires Enabled(s, Queue(step)) && Mover(step) == WORKER
    ensures Agrees(Next(s, Queue(step))) && Flags(Next(s, Queue(step)))
  {
    hide P.Next, P.Enabled;
    WorkerAgrees(s, step);
    WorkerStep(s, step);
  }

  lemma NextFlags(s: System, a: Action)
    requires Agrees(s) && Flags(s) && Enabled(s, a)
    ensures Agrees(Next(s, a)) && Flags(Next(s, a))
  {
    NextAgrees(s, a);
    hide P.Next, P.Enabled, PushingPc, CountingPc, PoppingPc;
    if a.Queue? {
      OnlyTwo(s, a.step);
      if Mover(a.step) == MAIN { MainFlags(s, a.step); }
      if Mover(a.step) == WORKER { WorkerFlags(s, a.step); }
    }
  }

  lemma MainAccounted(s: System, step: P.Step)
    requires Agrees(s) && Flags(s) && Accounted(s)
    requires Enabled(s, Queue(step)) && Mover(step) == MAIN
    ensures Agrees(Next(s, Queue(step))) && Accounted(Next(s, Queue(step)))
  {
    hide P.Next, P.Enabled;
    MainAgrees(s, step);
    MainStep(s, step);
  }

  lemma WorkerAccounted(s: System, step: P.Step)
    requires Agrees(s) && Flags(s) && Accounted(s)
    requires Enabled(s, Queue(step)) && Mover(step) == WORKER
    ensures Agrees(Next(s, Queue(step))) && Accounted(Next(s, Queue(step)))
  {
    WorkerAgrees(s, step);
  }

  lemma NextAccounted(s: System, a: Action)
    requires Agrees(s) && Flags(s) && Accounted(s) && Enabled(s, a)
    ensures Agrees(Next(s, a)) && Accounted(Next(s, a))
  {
    NextAgrees(s, a);
    hide P.Next, P.Enabled, PushingPc, StoppingPc, CountingPc, PoppingPc, Flags;
    if a.Queue? {
      OnlyTwo(s, a.step);
      if Mover(a.step) == MAIN { MainAccounted(s, a.step); }
      if Mover(a.step) == WORKER { WorkerAccounted(s, a.step); }
    }
  }

  lemma MainLogged(s: System, step: P.Step)
    requires Agrees(s) && Flags(s) && Logged(s)
    requires Enabled(s, Queue(step)) && Mover(step) == MAIN
    ensures Agrees(Next(s, Queue(step))) && Logged(Next(s, Queue(step)))
  {
    MainAgrees(s, step);
  }

  lemma WorkerLogged(s: System, step: P.Step)
    requires Agrees(s) && Flags(s) && Logged(s)
    requires Enabled(s, Queue(step)) && Mover(step) == WORKER
    ensures Agrees(Next(s, Queue(step))) && Logged(Next(s, Queue(step)))
  {
    hide P.Next, P.Enabled;
    WorkerAgrees(s, step);
    WorkerStep(s, step);
  }

  lemma NextLogged(s: System, a: Action)
    requires Agrees(s) && Flags(s) && Logged(s) && Enabled(s, a)
    ensures Agrees(Next(s, a)) && Logged(Next(s, a))
  {
    NextAgrees(s, a);
    hide P.Next, P.Enabled, StoppingPc, CountingPc, PoppingPc, Flags;
    if a.Queue? {
      OnlyTwo(s, a.step);
      if Mover(a.step) == MAIN { MainLogged(s, a.step); }
      if Mover(a.step) == WORKER { WorkerLogged(s, a.step); }
    }
  }

  lemma MainCounts(s: System, step: P.Step)
    requires Agrees(s) && Flags(s) && Counts(s)
    requires Enabled(s, Queue(step)) && Mover(step) == MAIN
    ensures Agrees(Next(s, Queue(step))) && Counts(Next(s, Queue(step)))
  {
    MainAgrees(s, step);
  }

  lemma WorkerCounts(s: System, step: P.Step)
    requires Agrees(s) && Flags(s) && Counts(s)
    requires Enabled(s, Queue(step)) && Mover(step) == WORKER
    ensures Agrees(Next(s, Queue(step))) && Counts(Next(s, Queue(step)))
  {
    WorkerAgrees(s, step);
  }

  lemma NextCounts(s: System, a: Action)
    requires Agrees(s) && Flags(s) && Counts(s) && Enabled(s, a)
    ensures Agrees(Next(s, a)) && Counts(Next(s, a))
  {
    NextAgrees(s, a);
    hide P.Next, P.Enabled, PushingPc, StoppingPc, CountingPc, PoppingPc;
    if a.Queue? {
      OnlyTwo(s, a.step);
      if Mover(a.step) == MAIN { MainCounts(s, a.step); }
      if Mover(a.step) == WORKER { WorkerCounts(s, a.step); }
    }
  }

  lemma {:induction false} RepeatedAppend(evs: seq<Event>, counts: seq<nat>, ev: Event, n: nat)
    requires |evs| == |counts|
    ensures Repeated(evs + [ev], counts + [n]) == Repeated(evs, counts) + Copies(ev, n)
  {
    assert (evs + [ev])[..|evs|] == evs && (counts + [n])[..|evs|] == counts;
  }

  /** One more attempt, in terms of the lists alone. */
  lemma OnePost(finished: seq<Event>, counts: seq<nat>, ev: Event, current: nat, committed: bool)
    requires |finished| == |counts|
    ensures var n := if committed then current + 1 else current;
            var commits := Repeated(finished, counts) + Copies(ev, current);
            var more := if committed then commits + [ev] else commits;
            && more == Repeated(finished, counts) + Copies(ev, n)
            && more == Repeated(finished + [ev], counts + [n]) + []
  {
    var n := if committed then current + 1 else current;
    RepeatedAppend(finished, counts, ev, n);
    if committed {
      var done, copies := Repeated(finished, counts), Copies(ev, current);
      assert Copies(ev, current + 1) == copies + [ev];
      assert (done + copies) + [ev] == done + (copies + [ev]);
    }
  }

  /** Done with the event in hand, or about to try again. */
  lemma PostTally(ev: Event, retries: nat, finished: seq<Event>, counts: seq<nat>, commits: seq<Event>,
                  current: nat, committed: bool)
    requires Tally(Posting(ev, retries), finished, counts, commits, current)
    ensures var n := if committed then current + 1 else current;
            var more := if committed then commits + [ev] else commits;
            && Tally(Looping, finished + [ev], counts + [n], more, 0)
            && (retries > 1 ==> Tally(Posting(ev, retries - 1), finished, counts, more, n))
  {
    hide Repeated, Copies;
    OnePost(finished, counts, ev, current, committed);
  }

  lemma PostAttempts(s: System, committed: bool, reported: bool)
    requires Agrees(s) && Attempts(s) && s.worker.Posting?
    ensures Attempts(Next(s, Post(committed, reported)))
  {
    hide Agrees, Tally, P.Next, P.Enabled;
    PostTally(s.worker.ev, s.worker.retries, s.finished, s.counts, s.commits, s.current, committed);
  }

  lemma NextAttempts(s: System, a: Action)
    requires Agrees(s) && Flags(s) && Attempts(s) && Enabled(s, a)
    ensures Agrees(Next(s, a)) && Attempts(Next(s, a))
  {
    NextAgrees(s, a);
    hide P.Next, P.Enabled, PushingPc, StoppingPc, CountingPc, PoppingPc, Flags;
    if a.Post? {
      PostAttempts(s, a.committed, a.reported);
    } else if a.PopReturns? && !Next(s, a).worker.Looping? {
      assert Copies(Next(s, a).worker.ev, 0) == [];
    }
  }

  lemma NextInv(s: System, a: Action)
    requires Inv(s) && Enabled(s, a)
    ensures Inv(Next(s, a))
  {
    hide Flags, Accounted, Logged, Counts, Attempts, P.Inv;
    QueueInv(s, a);
    NextAgrees(s, a);
    NextFlags(s, a);
    NextAccounted(s, a);
    NextLogged(s, a);
    NextCounts(s, a);
    NextAttempts(s, a);
    ActionsAreSteps(s, a);
    P.RunKeepsSize(s.p, QueueSteps(s, a));
  }

  // --- runs ---------------------------------------------------------------------------------------

  predicate ValidRun(s: System, run: seq<Action>)
    decreases |run|
  {
    {MAIN, WORKER} <= s.p.pcs.Keys &&
    (run == [] || (Enabled(s, run[0]) && ValidRun(Next(s, run[0]), run[1..])))
  }

  function Final(s: System, run: seq<Action>): System
    requires ValidRun(s, run)
    decreases |run|
  {
    if run == [] then s else Final(Next(s, run[0]), run[1..])
  }

  lemma {:induction false} RunInv(s: System, run: seq<Action>)
    requires Inv(s) && ValidRun(s, run)
    ensures Inv(Final(s, run))
    decreases |run|
  {
    if run != [] {
      NextInv(s, run[0]);
      RunInv(Next(s, run[0]), run[1..]);
    }
  }

  /** Conservation in every reachable state: the events pushed are those finished, the one in
      flight and those queued, in order; the log is the same list, or short of its last event;
      and the ledger got the finished events in order, each at most three times, besides at
      most two posts of the one in flight. */
  lemma {:induction false} Conservation(size: nat, run: seq<Action>)
    requires size > 0 && ValidRun(Start(size), run)
    ensures var s := Final(Start(size), run);
            && Agrees(s)
            && s.p.pushed == s.finished + InFlight(s) + s.p.q.items
            && |InFlight(s)| <= 1
            && (s.p.pushed == s.log || exists ev :: s.p.pushed == s.log + [ev])
            && |s.counts| == |s.finished| && (forall i | 0 <= i < |s.counts| :: s.counts[i] <= RETRIES)
            && s.commits == Repeated(s.finished, s.counts) +
                            (if s.worker.Posting? then Copies(s.worker.ev, s.current) else [])
            && s.current < RETRIES
  {
    StartInv(size);
    RunInv(Start(size), run);
  }

  /** When the join of an uninterrupted process returns, the worker has finished with exactly
      the logged events, in the order of the log. */
  lemma {:induction false} JoinedMeansDelivered(size: nat, run: seq<Action>)
    requires size > 0 && ValidRun(Start(size), run)
    ensures var s := Final(Start(size), run);
            s.main.Joined? && !s.interrupted ==> s.finished == s.log == s.p.pushed && s.p.q.items == []
  {
    StartInv(size);
    RunInv(Start(size), run);
  }

  // --- the worker's attempts --------------------------------------------------------------------

  /** How many posts a run has, and how many of them commit. */
  function Posts(run: seq<Action>): nat
  {
    if run == [] then 0 else (if run[0].Post? then 1 else 0) + Posts(run[1..])
  }

  function CommittedPosts(run: seq<Action>): nat
  {
    if run == [] then 0 else (if run[0].Post? && run[0].committed then 1 else 0) + CommittedPosts(run[1..])
  }

  predicate Unreported(run: seq<Action>) { forall a | a in run && a.Post? :: !a.reported }

  lemma OthersLeavePosting(s: System, a: Action)
    requires {MAIN, WORKER} <= s.p.pcs.Keys && Enabled(s, a) && s.worker.Posting? && !a.Post?
    ensures var n := Next(s, a);
            && n.worker == s.worker && n.finished == s.finished && n.counts == s.counts
            && n.commits == s.commits && n.current == s.current
  {
  }

  lemma {:induction false} UnreportedPosts(s: System, run: seq<Action>, ev: Event, left: nat)
    requires ValidRun(s, run) && s.worker == Posting(ev, left)
    requires Unreported(run) && Posts(run) < left
    ensures var f := Final(s, run);
            && f.worker == Posting(ev, left - Posts(run)) && f.finished == s.finished && f.counts == s.counts
            && f.commits == s.commits + Copies(ev, CommittedPosts(run))
            && f.current == s.current + CommittedPosts(run)
    decreases |run|
  {
    if run != [] {
      var a, n := run[0], Next(s, run[0]);
      assert a in run;
      if a.Post? {
        UnreportedPosts(n, run[1..], ev, left - 1);
        CopiesMore(ev, CommittedPosts(run[1..]));
        if a.committed {
          Reassociate(s.commits, [ev], Copies(ev, CommittedPosts(run[1..])));
        }
      } else {
        OthersLeavePosting(s, a);
        UnreportedPosts(n, run[1..], ev, left);
      }
    }
  }

  lemma {:induction false} CopiesMore(ev: Event, n: nat)
    ensures Copies(ev, n + 1) == [ev] + Copies(ev, n)
  {
    if n > 0 {
      CopiesMore(ev, n - 1);
    }
  }

  /** A popped event is tried up to three times. */
  lemma PopStartsPosting(s: System, ev: Event)
    requires {MAIN, WORKER} <= s.p.pcs.Keys && s.worker.Popping? && s.p.pcs[WORKER] == P.PopDone(Some(ev))
    ensures Enabled(s, PopReturns) && Next(s, PopReturns).worker == Posting(ev, 3)
  {
  }

  /** While fewer than three posts have been made, and none was reported as sent, the worker goes
      on trying: whatever the other threads do in between, it has the rest of its three attempts. */
  lemma {:induction false} KeepsTrying(s: System, run: seq<Action>, ev: Event)
    requires ValidRun(s, run) && s.worker == Posting(ev, 3)
    requires Unreported(run) && Posts(run) < 3
    ensures var f := Final(s, run);
            && f.worker == Posting(ev, 3 - Posts(run)) && f.finished == s.finished
            && f.commits == s.commits + Copies(ev, CommittedPosts(run))
  {
    UnreportedPosts(s, run, ev, 3);
  }

  /** It is done with the event at the first post reported as sent, or at the third one. */
  lemma {:induction false} StopsTrying(s: System, before: seq<Action>, last: Action, ev: Event)
    requires ValidRun(s, before + [last]) && s.worker == Posting(ev, 3) && s.current == 0
    requires Unreported(before) && Posts(before) < 3
    requires last.Post? && (last.reported || Posts(before) == 2)
    ensures var f := Final(s, before + [last]);
            var n := CommittedPosts(before) + if last.committed then 1 else 0;
            && f.worker == Looping && f.finished == s.finished + [ev] && f.counts == s.counts + [n]
            && f.commits == s.commits + Copies(ev, n)
  {
    hide Next, Enabled, Copies, ValidRun, Final, Unreported, Posts, CommittedPosts;
    FrontRun(s, before, last);
    UnreportedPosts(s, before, ev, 3);
    LastPost(Final(s, before), last, ev, 3 - Posts(before));
    CopiesEnd(s.commits, ev, CommittedPosts(before));
  }

  lemma LastPost(s: System, last: Action, ev: Event, left: nat)
    requires {MAIN, WORKER} <= s.p.pcs.Keys && s.worker == Posting(ev, left) && last.Post?
    requires last.reported || left == 1
    ensures var n := Next(s, last);
            && n.worker == Looping && n.finished == s.finished + [ev]
            && n.counts == s.counts + [s.current + if last.committed then 1 else 0]
            && n.commits == s.commits + if last.committed then [ev] else []
  {
    hide P.Next, P.Enabled;
  }

  lemma CopiesEnd(commits: seq<Event>, ev: Event, n: nat)
    ensures (commits + Copies(ev, n)) + [ev] == commits + Copies(ev, n + 1)
    ensures (commits + Copies(ev, n)) + [] == commits + Copies(ev, n)
  {
    Reassociate(commits, Copies(ev, n), [ev]);
  }

  lemma {:induction false} FrontRun(s: System, before: seq<Action>, last: Action)
    requires ValidRun(s, before + [last])
    ensures ValidRun(s, before) && {MAIN, WORKER} <= Final(s, before).p.pcs.Keys && Enabled(Final(s, before), last)
    ensures Final(s, before + [last]) == Next(Final(s, before), last)
    decreases |before|
  {
    if before == [] {
      assert ([] + [last])[1..] == [];
    } else {
      assert (before + [last])[1..] == before[1..] + [last];
      FrontRun(Next(s, before[0]), before[1..], last);
    }
  }

  // --- shutdown: when the join returns ---------------------------------------------------------------

  /** The stop sequence has set the shutdown flag. */
  ghost predicate ShutDown(s: System) { Inv(s) && s.p.q.shutdown }

  /** What lets the worker end after that. */
  predicate Ends(s: System)
    requires Agrees(s)
  {
    s.p.q.items == [] || Leaving(s)
  }

  lemma ShutDownStays(s: System, a: Action)
    requires ShutDown(s) && Enabled(s, a)
    ensures ShutDown(Next(s, a)) && Next(s, a).p.q == s.p.q && Next(s, a).log == s.log
  {
    hide P.Inv, P.Next;
    NextInv(s, a);
    ActionsAreSteps(s, a);
    P.ShutdownFreezes(s.p, QueueSteps(s, a));
  }

  lemma EndsStays(s: System, a: Action)
    requires ShutDown(s) && Enabled(s, a)
    ensures ShutDown(Next(s, a)) && (Ends(Next(s, a)) <==> Ends(s))
  {
    hide P.Inv, P.Next, P.Enabled, Accounted, Logged, Attempts, Counts;
    ShutDownStays(s, a);
    if Leaving(s) {
      LeavingStays(s, a);
    } else if s.p.q.items != [] && a.Queue? {
      OnlyTwo(s, a.step);
      if Mover(a.step) == MAIN { MainStep(s, a.step); }
      if Mover(a.step) == WORKER { StayingStep(s, a.step); }
    }
  }

  /** With an event left in the queue at the shutdown, and the worker not leaving, it never
      leaves its loop: the count stays positive, every pop is refused, and the join does not
      return. */
  lemma {:induction false} ShutdownHangs(s: System, run: seq<Action>)
    requires ShutDown(s) && !Ends(s) && ValidRun(s, run)
    ensures var f := Final(s, run);
            f.p.q.items == s.p.q.items && !f.worker.Exited? && !f.main.Joined?
    decreases |run|
  {
    hide P.Inv;
    if run != [] {
      ShutDownStays(s, run[0]);
      EndsStays(s, run[0]);
      ShutdownHangs(Next(s, run[0]), run[1..]);
    }
  }

  /** How many actions the worker has left after a shutdown with an empty queue. */
  function WorkerLeft(s: System): nat
    requires Agrees(s)
  {
    match s.worker
    case Exited => 0
    case Counting =>
      (match s.p.pcs[WORKER]
       case CountDone(_) => 1
       case CountLeave(_) => 2
       case CountRead => 3
       case _ => 4)
    case Looping => 5
    case Posting(_, retries) => 5 + retries
    case Popping =>
      (match s.p.pcs[WORKER]
       case PopDone(res) => if res.None? then 6 else 9
       case PopLeave(res) => if res.None? then 7 else 10
       case PopSignal(_) => 11
       case PopTake => 8
       case PopWait => if WORKER in s.p.notEmpty.asleep then 10 else 9
       case PopTest => 9
       case _ => 10)
  }

  function MainLeft(s: System): nat
    requires Agrees(s)
  {
    if s.main.Joined? then 0 else if s.main.Joining? then 1 else
    match s.p.pcs[MAIN]
    case StopDone => 2
    case StopLeave => 3
    case StopWakePushers => 4
    case _ => 5
  }

  /** After the shutdown the main thread holds the mutex only to broadcast and to leave. */
  lemma MainLeavesQueue(s: System, step: P.Step)
    requires ShutDown(s) && Enabled(s, Queue(step)) && Mover(step) == MAIN
    ensures step.Run? && s.main.Stopping? && FlagSetPc(s.p.pcs[MAIN]) && !s.p.pcs[MAIN].StopDone?
  {
    hide P.Fifo, P.SlotsCovered, P.EventsCovered, P.RoomToStore, P.FlagBeforeBroadcast;
    hide Accounted, Logged, Attempts, Counts;
  }

  lemma MainLeaves(s: System, a: Action)
    requires ShutDown(s) && Enabled(s, a) && Agrees(Next(s, a))
    requires a.ShutdownReturns? || a.Join? || (a.Queue? && Mover(a.step) == MAIN)
    ensures MainLeft(Next(s, a)) < MainLeft(s) && WorkerLeft(Next(s, a)) <= WorkerLeft(s)
  {
    hide P.Inv, Accounted, Logged, Attempts, Counts;
    if a.Queue? {
      MainLeavesQueue(s, a.step);
    }
  }

  lemma WorkerLeavesRun(s: System, ts: set<P.Tid>)
    requires ShutDown(s) && Ends(s) && Enabled(s, Queue(P.Run(WORKER, ts)))
    requires Agrees(Next(s, Queue(P.Run(WORKER, ts))))
    ensures WorkerLeft(Next(s, Queue(P.Run(WORKER, ts)))) < WorkerLeft(s)
    ensures MainLeft(Next(s, Queue(P.Run(WORKER, ts)))) == MainLeft(s)
  {
    hide P.Fifo, P.SlotsCovered, P.EventsCovered, P.RoomToStore, P.NobodySleeps, P.FlagBeforeBroadcast;
    hide Accounted, Logged, Attempts, Counts;
  }

  lemma WorkerLeavesQueue(s: System, step: P.Step)
    requires ShutDown(s) && Ends(s) && Enabled(s, Queue(step)) && Mover(step) == WORKER
    requires Agrees(Next(s, Queue(step)))
    ensures WorkerLeft(Next(s, Queue(step))) < WorkerLeft(s) && MainLeft(Next(s, Queue(step))) == MainLeft(s)
  {
    hide P.Fifo, P.SlotsCovered, P.EventsCovered, P.RoomToStore, P.FlagBeforeBroadcast;
    hide Accounted, Logged, Attempts, Counts, P.Ran;
    match step
    case Run(t, ts) => WorkerLeavesRun(s, ts);
    case Wake(t) => assert s.p.pcs[WORKER].PopWait?;
    case Lock(t) =>
    case _ =>
  }

  lemma WorkerLeavesOther(s: System, a: Action)
    requires ShutDown(s) && Ends(s) && Enabled(s, a) && Agrees(Next(s, a))
    requires a.TestRunning? || a.CountReturns? || a.PopReturns? || a.Post?
    ensures WorkerLeft(Next(s, a)) < WorkerLeft(s) && MainLeft(Next(s, a)) == MainLeft(s)
  {
    hide P.Inv, P.Next, P.Enabled, Accounted, Logged;
  }

  lemma SignalIgnored(s: System)
    requires ShutDown(s)
    ensures Next(s, Signal) == s
  {
  }

  function Left(s: System): nat
    requires Agrees(s)
  {
    MainLeft(s) + WorkerLeft(s)
  }

  lemma LeftDecreases(s: System, a: Action)
    requires ShutDown(s) && Ends(s) && Enabled(s, a) && !a.Signal?
    ensures ShutDown(Next(s, a)) && Ends(Next(s, a)) && Left(Next(s, a)) < Left(s)
  {
    EndsStays(s, a);
    if a.ShutdownReturns? || a.Join? || (a.Queue? && Mover(a.step) == MAIN) {
      MainLeaves(s, a);
    } else if a.Queue? {
      OnlyTwo(s, a.step);
      assert Mover(a.step) == WORKER;
      WorkerLeavesQueue(s, a.step);
    } else {
      WorkerLeavesOther(s, a);
    }
  }

  /** Short of the join there is always something to do. */
  lemma NeverStuck(s: System) returns (a: Action)
    requires ShutDown(s) && !s.main.Joined?
    ensures !a.Signal? && Enabled(s, a)
  {
    if s.p.owner.Some? {
      a := Queue(P.Run(s.p.owner.value, {}));
    } else if s.main.Stopping? {
      a := ShutdownReturns;
    } else if s.worker.Exited? {
      a := Join;
    } else {
      match s.worker
      case Looping => a := TestRunning;
      case Posting(_, _) => a := Post(true, true);
      case Counting => a := if s.p.pcs[WORKER].CountDone? then CountReturns else Queue(P.Lock(WORKER));
      case Popping => a := if s.p.pcs[WORKER].PopDone? then PopReturns else Queue(P.Lock(WORKER));
    }
  }

  /** The actions of a run that are not signals. */
  function Actions(run: seq<Action>): nat
  {
    if run == [] then 0 else (if run[0].Signal? then 0 else 1) + Actions(run[1..])
  }

  lemma LeftBound(s: System)
    requires Agrees(s) && Attempts(s)
    ensures Left(s) <= 16
  {
  }

  lemma OnlyJoinStops(s: System)
    requires ShutDown(s) && forall a | Enabled(s, a) :: a.Signal?
    ensures s.main.Joined?
  {
    if !s.main.Joined? {
      var a := NeverStuck(s);
    }
  }

  /** With an empty queue at the shutdown, or the worker leaving, every run comes to an end
      within 16 actions, further signals aside, and only the returned join ends it. */
  lemma {:induction false} ShutdownTerminates(s: System, run: seq<Action>)
    requires ShutDown(s) && Ends(s) && ValidRun(s, run)
    ensures Actions(run) <= Left(s) <= 16 && Agrees(Final(s, run))
    ensures (forall a | Enabled(Final(s, run), a) :: a.Signal?) ==> Final(s, run).main.Joined?
    decreases |run|
  {
    hide P.Inv, Flags, Accounted, Logged, Counts, Ends, Enabled, Next;
    LeftBound(s);
    if run == [] {
      if forall a | Enabled(s, a) :: a.Signal? {
        OnlyJoinStops(s);
      }
    } else if run[0].Signal? {
      SignalIgnored(s);
      ShutdownTerminates(s, run[1..]);
    } else {
      LeftDecreases(s, run[0]);
      ShutdownTerminates(Next(s, run[0]), run[1..]);
    }
  }

  // --- an early signal ----------------------------------------------------------------------------

  /** Once the worker has counted no events and found the flag cleared, it only leaves: nothing
      is taken from the queue any more. */
  lemma LeavingStays(s: System, a: Action)
    requires Inv(s) && Leaving(s) && Enabled(s, a)
    ensures Agrees(Next(s, a)) && Leaving(Next(s, a)) && Next(s, a).p.popped == s.p.popped
    ensures s.p.q.items <= Next(s, a).p.q.items
  {
    hide P.Inv, P.Next, P.Enabled, Accounted, Logged, Attempts, Counts;
    NextAgrees(s, a);
    if a.Queue? {
      OnlyTwo(s, a.step);
      if Mover(a.step) == MAIN { MainStep(s, a.step); MainNeverPops(s, a.step); }
      if Mover(a.step) == WORKER { LeavingStep(s, a.step); }
    }
  }

  lemma LeavingStep(s: System, step: P.Step)
    requires Agrees(s) && Leaving(s) && Enabled(s, Queue(step)) && Mover(step) == WORKER
    ensures var p := P.Next(s.p, step);
            && WORKER in p.pcs && p.popped == s.p.popped && p.q == s.p.q
            && (CountTaken(s.p.pcs[WORKER]) ==> CountTaken(p.pcs[WORKER]) && p.pcs[WORKER].c == s.p.pcs[WORKER].c)
            && (s.worker.Exited? ==> p.pcs[WORKER] == s.p.pcs[WORKER])
  {
  }

  lemma MainNeverPops(s: System, step: P.Step)
    requires Agrees(s) && Enabled(s, Queue(step)) && Mover(step) == MAIN
    ensures P.Next(s.p, step).popped == s.p.popped && s.p.q.items <= P.Next(s.p, step).q.items
  {
  }

  /** After an early exit of the worker the queue only fills up: at most `size` events beyond
      those already taken are ever pushed. */
  lemma {:induction false} EarlyExitFillsUp(s: System, run: seq<Action>)
    requires Inv(s) && Leaving(s) && ValidRun(s, run)
    ensures var f := Final(s, run);
            && Agrees(f) && Leaving(f) && f.p.popped == s.p.popped
            && s.p.q.items <= f.p.q.items
            && |f.p.pushed| <= |s.p.popped| + s.p.q.size
    decreases |run|
  {
    if run != [] {
      NextInv(s, run[0]);
      LeavingStays(s, run[0]);
      ActionsAreSteps(s, run[0]);
      P.RunKeepsSize(s.p, QueueSteps(s, run[0]));
      EarlyExitFillsUp(Next(s, run[0]), run[1..]);
    }
  }

  /** A push in progress can return: the event is stored, or there is room, or the worker will
      make some. */
  predicate CanReturn(s: System)
    requires Agrees(s)
  {
    StoredPc(s.p.pcs[MAIN]) || !Full(s.p.q) || !Leaving(s)
  }

  ghost predicate InPush(s: System) { Inv(s) && s.main.Pushing? }

  /** The main thread is in a push that finds the queue full, and the worker is gone or leaving. */
  ghost predicate Blocked(s: System) { InPush(s) && !CanReturn(s) }

  /** The main thread's steps in a push: it stays in it, and stores only with room. */
  lemma MainPushes(s: System, step: P.Step)
    requires InPush(s) && Enabled(s, Queue(step)) && Mover(step) == MAIN
    ensures var p := P.Next(s.p, step);
            && MAIN in p.pcs && p.q.size == s.p.q.size
            && (StoredPc(s.p.pcs[MAIN]) ==> StoredPc(p.pcs[MAIN]))
            && (StoredPc(p.pcs[MAIN]) || p.q == s.p.q)
            && (Full(s.p.q) && !StoredPc(s.p.pcs[MAIN]) ==> !StoredPc(p.pcs[MAIN]) && p.q == s.p.q)
  {
    hide P.Fifo, P.SlotsCovered, P.EventsCovered, P.NobodySleeps, P.FlagBeforeBroadcast, P.WaitersAt;
    hide Accounted, Logged, Attempts, Counts;
  }

  lemma BlockedStays(s: System, a: Action)
    requires Blocked(s) && Enabled(s, a)
    ensures Blocked(Next(s, a)) && Next(s, a).main == s.main && Next(s, a).log == s.log
  {
    hide P.Inv, P.Next, P.Enabled, Accounted, Logged, Attempts, Counts;
    NextInv(s, a);
    LeavingStays(s, a);
    if a.Queue? {
      OnlyTwo(s, a.step);
      if Mover(a.step) == MAIN { MainPushes(s, a.step); }
      if Mover(a.step) == WORKER { LeavingStep(s, a.step); WorkerStep(s, a.step); }
    }
  }

  /** Such a push never returns, so the stop sequence is never reached and nothing more is logged. */
  lemma {:induction false} EarlyExitBlocks(s: System, run: seq<Action>)
    requires Blocked(s) && ValidRun(s, run)
    ensures Final(s, run).main == s.main && Final(s, run).log == s.log && !Final(s, run).p.q.shutdown
    decreases |run|
  {
    if run != [] {
      BlockedStays(s, run[0]);
      EarlyExitBlocks(Next(s, run[0]), run[1..]);
    }
  }

  // --- every other push can return ----------------------------------------------------------------

  /** The actions of the worker up to taking an event, with events queued. */
  function ToTake(s: System): nat
    requires Agrees(s)
  {
    match s.worker
    case Exited => 0
    case Counting =>
      (match s.p.pcs[WORKER]
       case CountDone(_) => 4
       case CountLeave(_) => 5
       case CountRead => 6
       case _ => 7)
    case Looping => 8
    case Posting(_, _) => 9
    case Popping =>
      (match s.p.pcs[WORKER]
       case PopDone(_) => 10
       case PopLeave(_) => 11
       case PopSignal(_) => 12
       case PopTake => 1
       case PopTest => 2
       case PopWait => 2
       case _ => 3)
  }

  /** The actions of the worker up to giving the mutex back. */
  function ToUnlock(s: System): nat
    requires Agrees(s)
  {
    match s.p.pcs[WORKER]
    case PopTest => 4
    case PopTake => 3
    case PopSignal(_) => 2
    case PopLeave(_) => 1
    case CountRead => 2
    case CountLeave(_) => 1
    case _ => 0
  }

  /** The actions that bring the push to its return: the main thread's own, the worker's until
      it unlocks, and when the queue is full those until it takes an event. */
  function ToReturn(s: System): nat
    requires Agrees(s)
  {
    match s.p.pcs[MAIN]
    case PushDone(_) => 1
    case PushLeave(_) => 2
    case PushSignal => 3
    case pc =>
      if Full(s.p.q) then 11 + ToTake(s) + (if s.p.owner == Some(MAIN) then 1 else 0)
      else 3 + ToUnlock(s) + (if pc.PushStore? then 1 else if pc.PushTest? then 2 else 3)
  }

  /** The holder's next action; a signal wakes whoever sleeps. */
  function HolderRuns(s: System): Action
    requires s.p.owner.Some?
  {
    var t := s.p.owner.value;
    Queue(P.Run(t, if t == MAIN then s.p.notEmpty.asleep else s.p.notFull.asleep))
  }

  /** Neither a signal nor an unsignalled wakeup. */
  predicate Prompted(a: Action) { !a.Signal? && !(a.Queue? && a.step.Wake?) }

  /** What the cases of a push need of the invariant. */
  predicate InPushOpen(s: System)
  {
    && Agrees(s) && s.main.Pushing? && !s.p.q.shutdown && 0 < s.p.q.size && |s.p.q.items| <= s.p.q.size
    && (s.p.owner.Some? ==> s.p.owner.value in s.p.pcs && P.Holding(s.p.pcs[s.p.owner.value]))
    && (P.Holding(s.p.pcs[MAIN]) ==> s.p.owner == Some(MAIN))
    && (P.Holding(s.p.pcs[WORKER]) ==> s.p.owner == Some(WORKER))
    && (s.p.owner == Some(MAIN) && s.p.pcs[MAIN].PushStore? ==> !Full(s.p.q))
  }

  lemma InPushFacts(s: System)
    requires InPush(s)
    ensures InPushOpen(s)
  {
    hide Accounted, Logged, Attempts, Counts, P.SlotsCovered, P.EventsCovered, P.NobodySleeps, P.WaitersAt;
  }

  /** The action brings the push closer to its return. */
  predicate Closer(s: System, n: System)
    requires Agrees(s) && Agrees(n)
  {
    n.main == s.main && CanReturn(n) && ToReturn(n) < ToReturn(s)
  }

  lemma HolderCanRun(s: System)
    requires Agrees(s) && s.p.owner in {Some(MAIN), Some(WORKER)}
    ensures Enabled(s, HolderRuns(s))
  {
  }

  lemma MainHolds(s: System)
    requires InPushOpen(s) && CanReturn(s) && s.p.owner == Some(MAIN)
    requires Enabled(s, HolderRuns(s)) && Agrees(Next(s, HolderRuns(s)))
    ensures Closer(s, Next(s, HolderRuns(s)))
  {
    hide P.Rouse, P.Sleep;
  }

  /** What the worker's next action in the critical section does. */
  lemma WorkerRuns(s: System, n: P.State)
    requires InPushOpen(s) && s.p.owner == Some(WORKER)
    requires HolderRuns(s).Queue? && P.Enabled(s.p, HolderRuns(s).step) && n == P.Next(s.p, HolderRuns(s).step)
    ensures MAIN in n.pcs && WORKER in n.pcs && n.pcs[MAIN] == s.p.pcs[MAIN]
    ensures n.q.size == s.p.q.size && n.q.shutdown == s.p.q.shutdown && n.owner != Some(MAIN)
    ensures match s.p.pcs[WORKER]
            case PopTest =>
              && n.q == s.p.q
              && (n.pcs[WORKER] == P.PopTake || (s.p.q.items == [] && n.pcs[WORKER] == P.PopWait))
            case PopTake =>
              if s.p.q.items == [] then n.q == s.p.q && n.pcs[WORKER] == P.PopLeave(None)
              else |n.q.items| == |s.p.q.items| - 1 && n.pcs[WORKER].PopSignal?
            case PopSignal(_) => n.q == s.p.q && n.pcs[WORKER].PopLeave?
            case PopLeave(_) => n.q == s.p.q && n.pcs[WORKER].PopDone?
            case CountRead => n.q == s.p.q && n.pcs[WORKER] == P.CountLeave(|s.p.q.items|)
            case CountLeave(c) => n.q == s.p.q && n.pcs[WORKER] == P.CountDone(c)
            case _ => false
  {
    hide P.Rouse, P.Sleep;
  }

  lemma WorkerHoldsRoom(s: System)
    requires InPushOpen(s) && !Full(s.p.q) && !StoredPc(s.p.pcs[MAIN]) && s.p.owner == Some(WORKER)
    requires Enabled(s, HolderRuns(s)) && Agrees(Next(s, HolderRuns(s)))
    ensures Closer(s, Next(s, HolderRuns(s)))
  {
    WorkerRuns(s, Next(s, HolderRuns(s)).p);
    hide P.Next, P.Enabled, PushingPc, StoppingPc;
  }

  lemma WorkerHoldsFull(s: System)
    requires InPushOpen(s) && Full(s.p.q) && CanReturn(s) && !StoredPc(s.p.pcs[MAIN]) && s.p.owner == Some(WORKER)
    requires Enabled(s, HolderRuns(s)) && Agrees(Next(s, HolderRuns(s)))
    ensures Closer(s, Next(s, HolderRuns(s)))
  {
    WorkerRuns(s, Next(s, HolderRuns(s)).p);
    hide P.Next, P.Enabled, PushingPc, StoppingPc;
  }

  lemma HolderGoesOn(s: System)
    requires InPush(s) && CanReturn(s) && s.p.owner.Some? && !s.p.pcs[MAIN].PushDone?
    ensures Enabled(s, HolderRuns(s)) && Agrees(Next(s, HolderRuns(s))) && Closer(s, Next(s, HolderRuns(s)))
  {
    InPushFacts(s);
    OwnerKnown(s);
    HolderCanRun(s);
    NextAgrees(s, HolderRuns(s));
    hide P.Inv, Agrees, Flags, Enabled, Next, HolderRuns, ToReturn, Closer;
    if s.p.owner == Some(MAIN) {
      MainHolds(s);
    } else {
      StoredHolds(s);
      if Full(s.p.q) { WorkerHoldsFull(s); } else { WorkerHoldsRoom(s); }
    }
  }

  /** With the mutex free and room in the queue the main thread does not sleep unsignalled. */
  lemma MainAwake(s: System)
    requires InPush(s) && s.p.owner.None? && !Full(s.p.q) && s.p.pcs[MAIN].PushWait?
    ensures MAIN in s.p.notFull.woken
  {
    hide Accounted, Logged, Attempts, Counts, P.NobodySleeps, P.PoppersAtWait, P.EventsCovered;
    assert MAIN in s.p.notFull.asleep ==> s.p.notFull.woken == {};
  }

  lemma WorkerAwake(s: System)
    requires InPush(s) && s.p.owner.None? && Full(s.p.q) && s.p.pcs[WORKER].PopWait?
    ensures WORKER in s.p.notEmpty.woken
  {
    hide Accounted, Logged, Attempts, Counts, P.NobodySleeps, P.PushersAtWait, P.SlotsCovered;
    assert WORKER in s.p.notEmpty.asleep ==> s.p.notEmpty.woken == {};
  }

  lemma MainLocks(s: System)
    requires InPush(s) && s.p.owner.None? && !Full(s.p.q) && !StoredPc(s.p.pcs[MAIN])
    ensures Enabled(s, Queue(P.Lock(MAIN))) && Agrees(Next(s, Queue(P.Lock(MAIN))))
    ensures Closer(s, Next(s, Queue(P.Lock(MAIN))))
  {
    if s.p.pcs[MAIN].PushWait? { MainAwake(s); }
    InPushFacts(s);
    hide P.Inv, Accounted, Logged, Attempts, Counts;
    assert Enabled(s, Queue(P.Lock(MAIN)));
    NextAgrees(s, Queue(P.Lock(MAIN)));
  }

  /** What the worker does next with the mutex free. */
  function WorkerGoesOn(s: System): Action
    requires Agrees(s)
  {
    match s.worker
    case Looping => TestRunning
    case Posting(_, _) => Post(true, true)
    case Counting => if s.p.pcs[WORKER].CountDone? then CountReturns else Queue(P.Lock(WORKER))
    case Popping => if s.p.pcs[WORKER].PopDone? then PopReturns else Queue(P.Lock(WORKER))
    case Exited => Join
  }

  lemma WorkerCanGoOn(s: System)
    requires InPushOpen(s) && s.p.owner.None? && !Leaving(s)
    requires s.p.pcs[WORKER].PopWait? ==> WORKER in s.p.notEmpty.woken
    ensures Enabled(s, WorkerGoesOn(s)) && Prompted(WorkerGoesOn(s))
  {
  }

  lemma WorkerCloser(s: System)
    requires InPushOpen(s) && s.p.owner.None? && Full(s.p.q) && !Leaving(s) && !StoredPc(s.p.pcs[MAIN])
    requires Enabled(s, WorkerGoesOn(s)) && Agrees(Next(s, WorkerGoesOn(s)))
    ensures Closer(s, Next(s, WorkerGoesOn(s)))
  {
    hide P.Enabled;
    if WorkerGoesOn(s).Queue? {
      WorkerLocksCloser(s);
    } else {
      hide P.Next;
    }
  }

  lemma WorkerLocksCloser(s: System)
    requires InPushOpen(s) && s.p.owner.None? && Full(s.p.q) && !Leaving(s) && !StoredPc(s.p.pcs[MAIN])
    requires Enabled(s, Queue(P.Lock(WORKER))) && Agrees(Next(s, Queue(P.Lock(WORKER))))
    requires (s.worker.Counting? && !CountTaken(s.p.pcs[WORKER])) || (s.worker.Popping? && !s.p.pcs[WORKER].PopDone?)
    ensures Closer(s, Next(s, Queue(P.Lock(WORKER))))
  {
    hide P.Enabled, P.Ran;
  }

  lemma WorkerMakesRoom(s: System)
    requires InPush(s) && s.p.owner.None? && Full(s.p.q) && CanReturn(s) && !StoredPc(s.p.pcs[MAIN])
    ensures Enabled(s, WorkerGoesOn(s)) && Prompted(WorkerGoesOn(s))
    ensures Agrees(Next(s, WorkerGoesOn(s))) && Closer(s, Next(s, WorkerGoesOn(s)))
  {
    if s.p.pcs[WORKER].PopWait? { WorkerAwake(s); }
    InPushFacts(s);
    WorkerCanGoOn(s);
    NextAgrees(s, WorkerGoesOn(s));
    hide P.Inv, Agrees, Flags, Enabled, Next, ToReturn, Closer, InPushOpen;
    WorkerCloser(s);
  }

  lemma PushGoesOn(s: System) returns (a: Action)
    requires InPush(s) && CanReturn(s)
    ensures Enabled(s, a) && Prompted(a) && Agrees(Next(s, a))
    ensures Next(s, a).main.Logging? || (InPush(Next(s, a)) && Closer(s, Next(s, a)))
  {
    if s.p.pcs[MAIN].PushDone? {
      a := PushReturns;
      NextAgrees(s, a);
    } else {
      a := PushStep(s);
      hide P.Inv, Closer, Enabled, Next;
      NextInv(s, a);
      CloserKeepsMain(s, Next(s, a));
    }
  }

  lemma CloserKeepsMain(s: System, n: System)
    requires Agrees(s) && Agrees(n) && Closer(s, n)
    ensures n.main == s.main
  {
  }

  lemma PushStep(s: System) returns (a: Action)
    requires InPush(s) && CanReturn(s) && !s.p.pcs[MAIN].PushDone?
    ensures Enabled(s, a) && Prompted(a) && Agrees(Next(s, a)) && Closer(s, Next(s, a))
  {
    hide Next, Closer, P.Inv, Flags, Accounted, Logged, Attempts, Counts;
    StoredHolds(s);
    if s.p.owner.Some? {
      a := HolderRuns(s);
      HolderGoesOn(s);
    } else if Full(s.p.q) {
      a := WorkerGoesOn(s);
      WorkerMakesRoom(s);
    } else {
      a := Queue(P.Lock(MAIN));
      MainLocks(s);
    }
  }

  /** Between storing and returning the main thread has the mutex. */
  lemma StoredHolds(s: System)
    requires InPush(s) && !s.p.pcs[MAIN].PushDone?
    ensures StoredPc(s.p.pcs[MAIN]) ==> s.p.owner == Some(MAIN)
  {
  }

  lemma OwnerKnown(s: System)
    requires Inv(s)
    ensures s.p.owner in {None, Some(MAIN), Some(WORKER)}
  {
  }

  lemma PushIsFinished(s: System) returns (run: seq<Action>)
    requires InPush(s) && CanReturn(s)
    ensures ValidRun(s, run) && Final(s, run).main.Logging? && forall a | a in run :: Prompted(a)
    decreases ToReturn(s)
  {
    hide P.Inv, Flags, Accounted, Logged, Counts, Attempts, CanReturn, Enabled, Next, Prompted;
    var a := PushGoesOn(s);
    var rest := [];
    if !Next(s, a).main.Logging? {
      rest := PushIsFinished(Next(s, a));
    }
    run := [a] + rest;
    assert run[1..] == rest;
  }

  /** A worker that is not leaving does not begin to while an event is queued. */
  lemma StayingStep(s: System, step: P.Step)
    requires Agrees(s) && !Leaving(s) && s.p.q.items != []
    requires Enabled(s, Queue(step)) && Mover(step) == WORKER
    ensures var p := P.Next(s.p, step);
            && WORKER in p.pcs && p.q.size == s.p.q.size && |p.q.items| <= |s.p.q.items|
            && !(CountTaken(p.pcs[WORKER]) && p.pcs[WORKER].c == 0)
  {
  }

  lemma WorkerNeverAdds(s: System, step: P.Step)
    requires Agrees(s) && Enabled(s, Queue(step)) && Mover(step) == WORKER
    ensures var p := P.Next(s.p, step);
            p.q.size == s.p.q.size && |p.q.items| <= |s.p.q.items|
  {
  }

  /** A push that can return stays able to under every action, until it does. */
  lemma CanReturnStays(s: System, a: Action)
    requires InPush(s) && CanReturn(s) && Enabled(s, a)
    ensures Agrees(Next(s, a))
    ensures Next(s, a).main == Logging(s.main.ev) ||
            (InPush(Next(s, a)) && Next(s, a).main == s.main && CanReturn(Next(s, a)))
  {
    hide P.Inv, P.Next, P.Enabled, Accounted, Logged, Attempts;
    NextInv(s, a);
    SizePositive(s);
    if a.Queue? {
      OnlyTwo(s, a.step);
      if Mover(a.step) == MAIN { MainPushes(s, a.step); MainStep(s, a.step); }
      if Mover(a.step) == WORKER {
        WorkerStep(s, a.step);
        WorkerNeverAdds(s, a.step);
        if Full(s.p.q) && !StoredPc(s.p.pcs[MAIN]) { StayingStep(s, a.step); }
      }
    }
  }

  lemma SizePositive(s: System)
    requires Inv(s)
    ensures 0 < s.p.q.size
  {
  }

  /** In every reachable state with a push in progress, some continuation lets it return exactly
      when its event is stored, or the queue has room, or the worker is neither gone nor
      leaving; that continuation needs no signal and no unsignalled wakeup. */
  lemma {:induction false} PushReturnsIff(size: nat, past: seq<Action>)
    requires size > 0 && ValidRun(Start(size), past)
    ensures var s := Final(Start(size), past);
            && Agrees(s)
            && (s.main.Pushing? ==>
                  && ((exists run | ValidRun(s, run) :: Final(s, run).main.Logging?) <==>
                        StoredPc(s.p.pcs[MAIN]) || !Full(s.p.q) || !Leaving(s))
                  && ((exists run | ValidRun(s, run) :: Final(s, run).main.Logging?) ==>
                        exists run | ValidRun(s, run) ::
                          Final(s, run).main.Logging? && forall a | a in run :: Prompted(a)))
  {
    hide P.Inv;
    StartInv(size);
    RunInv(Start(size), past);
    var s := Final(Start(size), past);
    if s.main.Pushing? {
      if CanReturn(s) {
        var run := PushIsFinished(s);
      } else {
        forall run | ValidRun(s, run) ensures !Final(s, run).main.Logging? {
          EarlyExitBlocks(s, run);
        }
      }
    }
  }

  // --- the two bad ends are reachable, and the good one is when it should be ----------------------

  lemma {:induction false} Extend(s: System, run: seq<Action>, a: Action)
    requires ValidRun(s, run) && {MAIN, WORKER} <= Final(s, run).p.pcs.Keys && Enabled(Final(s, run), a)
    requires {MAIN, WORKER} <= Next(Final(s, run), a).p.pcs.Keys
    ensures ValidRun(s, run + [a]) && Final(s, run + [a]) == Next(Final(s, run), a)
    decreases |run|
  {
    if run == [] {
      assert [a][1..] == [];
    } else {
      assert (run + [a])[1..] == run[1..] + [a];
      Extend(Next(s, run[0]), run[1..], a);
    }
  }

  lemma {:induction false} Concatenate(s: System, first: seq<Action>, second: seq<Action>)
    requires ValidRun(s, first) && ValidRun(Final(s, first), second)
    ensures ValidRun(s, first + second) && Final(s, first + second) == Final(Final(s, first), second)
    decreases |first|
  {
    if first == [] {
      assert first + second == second;
    } else {
      assert (first + second)[1..] == first[1..] + second;
      Concatenate(Next(s, first[0]), first[1..], second);
    }
  }

  /** One action of the main thread alone in the queue's code. */
  function MainRuns(): Action { Queue(P.Run(MAIN, {})) }

  /** A state in which the main thread can push one event undisturbed. */
  predicate Undisturbed(s: System)
  {
    && s.p.pcs.Keys == {MAIN, WORKER} && s.p.pcs[MAIN] == P.Idle && s.main.Producing?
    && s.p.owner.None? && !s.p.q.shutdown && s.p.notEmpty == P.Waiters({}, {}) && s.p.notFull == P.Waiters({}, {})
  }

  function WithEvent(s: System, ev: Event): System
  {
    s.(p := s.p.(q := s.p.q.(items := s.p.q.items + [ev]), pushed := s.p.pushed + [ev]), log := s.log + [ev])
  }

  /** The same with the event stored but the push not yet left. */
  function WithStored(s: System, ev: Event): System
    requires MAIN in s.p.pcs
  {
    s.(p := P.At(s.p.(q := s.p.q.(items := s.p.q.items + [ev]), pushed := s.p.pushed + [ev], owner := Some(MAIN)),
                 MAIN, P.PushSignal),
       main := Pushing(ev))
  }

  lemma PushStores(s: System, ev: Event) returns (run: seq<Action>)
    requires Undisturbed(s) && !Full(s.p.q)
    ensures ValidRun(s, run) && Final(s, run) == WithStored(s, ev)
  {
    run := [];
    Extend(s, run, Produce(ev)); run := run + [Produce(ev)];
    Extend(s, run, Queue(P.Lock(MAIN))); run := run + [Queue(P.Lock(MAIN))];
    Extend(s, run, MainRuns()); run := run + [MainRuns()];
    Extend(s, run, MainRuns()); run := run + [MainRuns()];
    assert Final(s, run).p.pcs == s.p.pcs[MAIN := P.PushSignal];
  }

  lemma PushLeaves(s: System, ev: Event) returns (run: seq<Action>)
    requires Undisturbed(s)
    ensures ValidRun(WithStored(s, ev), run) && Final(WithStored(s, ev), run) == WithEvent(s, ev)
  {
    var s1 := WithStored(s, ev);
    run := [];
    assert P.Rouse(s.p.notEmpty, {}) == s.p.notEmpty;
    Extend(s1, run, MainRuns()); run := run + [MainRuns()];
    Extend(s1, run, MainRuns()); run := run + [MainRuns()];
    Extend(s1, run, PushReturns); run := run + [PushReturns];
    Extend(s1, run, WriteLog); run := run + [WriteLog];
    assert Final(s1, run).p.pcs == s.p.pcs;
  }

  lemma PushOne(s: System, ev: Event) returns (run: seq<Action>)
    requires Undisturbed(s) && !Full(s.p.q)
    ensures ValidRun(s, run) && Final(s, run) == WithEvent(s, ev)
  {
    hide WithEvent, Enabled, Next;
    var store := PushStores(s, ev);
    var leave := PushLeaves(s, ev);
    Concatenate(s, store, leave);
    run := store + leave;
  }

  /** The main thread, undisturbed, clears the flag and sets the queue's shutdown. */
  lemma ShutOne(s: System) returns (run: seq<Action>)
    requires Undisturbed(s)
    ensures ValidRun(s, run)
    ensures var f := Final(s, run);
            && f.p.q == s.p.q.(shutdown := true) && f.interrupted == s.interrupted
            && f.worker == s.worker && f.log == s.log
  {
    run := [];
    Extend(s, run, ClearFlag); run := run + [ClearFlag];
    Extend(s, run, Queue(P.Lock(MAIN))); run := run + [Queue(P.Lock(MAIN))];
    Extend(s, run, MainRuns()); run := run + [MainRuns()];
  }

  /** An event pushed just before the stop sequence, with the worker not yet scheduled: the
      process then hangs in its join, by ShutdownHangs. */
  lemma HangIsReachable(size: nat, ev: Event) returns (run: seq<Action>)
    requires size > 0
    ensures ValidRun(Start(size), run)
    ensures ShutDown(Final(Start(size), run)) && !Ends(Final(Start(size), run))
    ensures Final(Start(size), run).p.q.items == [ev]
  {
    var s := Start(size);
    var push := PushOne(s, ev);
    var shut := ShutOne(WithEvent(s, ev));
    Concatenate(s, push, shut);
    run := push + shut;
    StartInv(size);
    RunInv(s, run);
  }

  /** With the flag cleared and the queue empty, the worker, undisturbed, counts and leaves. */
  lemma WorkerAlone(s: System) returns (run: seq<Action>)
    requires Undisturbed(s) && s.p.q.items == [] && !s.running
    requires s.worker.Looping? && s.p.pcs[WORKER] == P.Idle
    ensures ValidRun(s, run) && Final(s, run) == s.(worker := Exited)
  {
    var step := Queue(P.Run(WORKER, {}));
    run := WorkerReadsCount(s);
    WorkerCountsNone(s);
    hide Enabled, Next;
    Extend(s, run, step); run := run + [step];
    Extend(s, run, CountReturns); run := run + [CountReturns];
  }

  lemma WorkerCountsNone(s: System)
    requires Undisturbed(s) && s.worker.Looping? && s.p.pcs[WORKER] == P.Idle
    ensures var s1, step := AtCount(s, P.CountLeave(0)), Queue(P.Run(WORKER, {}));
            && Enabled(s1, step) && {MAIN, WORKER} <= Next(s1, step).p.pcs.Keys
            && Enabled(Next(s1, step), CountReturns)
            && Next(Next(s1, step), CountReturns) == s.(worker := Exited)
  {
    var last := Next(Next(AtCount(s, P.CountLeave(0)), Queue(P.Run(WORKER, {}))), CountReturns);
    assert last.p.pcs == s.p.pcs;
  }

  function AtCount(s: System, pc: P.Pc): System
    requires WORKER in s.p.pcs
  {
    s.(worker := Counting, p := P.At(s.p, WORKER, pc).(owner := Some(WORKER)))
  }

  lemma WorkerEntersCount(s: System) returns (run: seq<Action>)
    requires Undisturbed(s) && !s.running && s.worker.Looping? && s.p.pcs[WORKER] == P.Idle
    ensures ValidRun(s, run) && Final(s, run) == AtCount(s, P.CountRead)
  {
    run := [];
    Extend(s, run, TestRunning); run := run + [TestRunning];
    Extend(s, run, Queue(P.Lock(WORKER))); run := run + [Queue(P.Lock(WORKER))];
  }

  lemma WorkerReads(s: System)
    requires {MAIN, WORKER} <= s.p.pcs.Keys
    ensures var step := Queue(P.Run(WORKER, {}));
            && Enabled(AtCount(s, P.CountRead), step)
            && Next(AtCount(s, P.CountRead), step) == AtCount(s, P.CountLeave(|s.p.q.items|))
  {
  }

  lemma WorkerReadsCount(s: System) returns (run: seq<Action>)
    requires Undisturbed(s) && !s.running && s.worker.Looping? && s.p.pcs[WORKER] == P.Idle
    ensures ValidRun(s, run) && Final(s, run) == AtCount(s, P.CountLeave(|s.p.q.items|))
  {
    hide Enabled, Next;
    var step := Queue(P.Run(WORKER, {}));
    run := WorkerEntersCount(s);
    WorkerReads(s);
    Extend(s, run, step);
    run := run + [step];
  }

  /** A signal before the first event lets the worker leave at once. */
  lemma EarlyExitIsReachable(size: nat) returns (run: seq<Action>)
    requires size > 0
    ensures ValidRun(Start(size), run)
    ensures Final(Start(size), run) == Start(size).(running := false, interrupted := true, worker := Exited)
  {
    var s := Start(size);
    var signalled := s.(running := false, interrupted := true);
    Extend(s, [], Signal);
    assert [] + [Signal] == [Signal];
    var alone := WorkerAlone(signalled);
    Concatenate(s, [Signal], alone);
    run := [Signal] + alone;
  }

  /** Undisturbed pushes fill the queue. */
  lemma FillUp(s: System, ev: Event) returns (run: seq<Action>)
    requires Undisturbed(s) && |s.p.q.items| <= s.p.q.size
    ensures ValidRun(s, run) && Undisturbed(Final(s, run)) && Full(Final(s, run).p.q)
    ensures Final(s, run).worker == s.worker && Final(s, run).p.pcs == s.p.pcs
    decreases s.p.q.size - |s.p.q.items|
  {
    run := [];
    if !Full(s.p.q) {
      var first := PushOne(s, ev);
      var rest := FillUp(WithEvent(s, ev), ev);
      Concatenate(s, first, rest);
      run := first + rest;
    }
  }

  lemma BlockFrom(size: nat, past: seq<Action>, ev: Event) returns (run: seq<Action>)
    requires size > 0 && ValidRun(Start(size), past) && Undisturbed(Final(Start(size), past))
    requires Agrees(Final(Start(size), past)) && Leaving(Final(Start(size), past))
    ensures ValidRun(Start(size), run) && Blocked(Final(Start(size), run))
    ensures Final(Start(size), run).worker == Final(Start(size), past).worker
  {
    hide P.Inv;
    var s := Start(size);
    StartInv(size);
    RunInv(s, past);
    QueueFits(Final(s, past));
    var fill := FillUp(Final(s, past), ev);
    Concatenate(s, past, fill);
    run := past + fill;
    RunInv(s, run);
    NextPushes(Final(s, run), ev);
    hide Enabled, Next, Undisturbed;
    Extend(s, run, Produce(ev));
    run := run + [Produce(ev)];
  }

  lemma NextPushes(s: System, ev: Event)
    requires Inv(s) && Undisturbed(s) && Leaving(s) && Full(s.p.q)
    ensures Enabled(s, Produce(ev)) && {MAIN, WORKER} <= Next(s, Produce(ev)).p.pcs.Keys
    ensures Blocked(Next(s, Produce(ev))) && Next(s, Produce(ev)).worker == s.worker
  {
    hide P.Inv;
    NextInv(s, Produce(ev));
  }

  lemma QueueFits(s: System)
    requires Inv(s)
    ensures |s.p.q.items| <= s.p.q.size
  {
  }

  /** So a process whose worker left early can end up in a push that never returns. */
  lemma BlockIsReachable(size: nat, ev: Event) returns (run: seq<Action>)
    requires size > 0
    ensures ValidRun(Start(size), run) && Blocked(Final(Start(size), run))
    ensures Final(Start(size), run).worker.Exited?
  {
    var exit := EarlyExitIsReachable(size);
    run := BlockFrom(size, exit, ev);
  }

  function Counted(s: System): System
    requires WORKER in s.p.pcs
  {
    s.(worker := Counting, p := P.At(s.p, WORKER, P.CountDone(0)))
  }

  lemma WorkerUnlocks(s: System)
    requires {MAIN, WORKER} <= s.p.pcs.Keys && s.p.owner.None?
    ensures var s1, step := AtCount(s, P.CountLeave(0)), Queue(P.Run(WORKER, {}));
            Enabled(s1, step) && Next(s1, step) == Counted(s)
  {
    var n := Next(AtCount(s, P.CountLeave(0)), Queue(P.Run(WORKER, {})));
    assert n.p.pcs == Counted(s).p.pcs;
  }

  lemma LateCount(size: nat) returns (run: seq<Action>)
    requires size > 0
    ensures ValidRun(Start(size), run)
    ensures Final(Start(size), run) == Counted(Start(size).(running := false, interrupted := true))
  {
    var s, step := Start(size), Queue(P.Run(WORKER, {}));
    var signalled := s.(running := false, interrupted := true);
    Extend(s, [], Signal);
    assert [] + [Signal] == [Signal];
    var count := WorkerReadsCount(signalled);
    WorkerUnlocks(signalled);
    hide Enabled, Next, Counted;
    Extend(signalled, count, step);
    Concatenate(s, [Signal], count + [step]);
    run := [Signal] + (count + [step]);
  }

  /** The same with a worker that has counted no events but not left yet. */
  lemma LateBlockIsReachable(size: nat, ev: Event) returns (run: seq<Action>)
    requires size > 0
    ensures ValidRun(Start(size), run) && Blocked(Final(Start(size), run))
    ensures Final(Start(size), run).worker.Counting?
  {
    var count := LateCount(size);
    run := BlockFrom(size, count, ev);
  }

  lemma JoinIsReachable(s: System) returns (run: seq<Action>)
    requires ShutDown(s) && Ends(s)
    ensures ValidRun(s, run) && Final(s, run).main.Joined?
    ensures Final(s, run).p.q == s.p.q && Final(s, run).log == s.log
    decreases Left(s)
  {
    run := [];
    if !s.main.Joined? {
      var a := NeverStuck(s);
      ShutDownStays(s, a);
      LeftDecreases(s, a);
      var rest := JoinIsReachable(Next(s, a));
      run := [a] + rest;
      assert run[1..] == rest;
    }
  }

  /** In every reachable state after the shutdown, some continuation lets the join return
      exactly when the queue was left empty or the worker is gone or leaving; by
      ShutdownTerminates all then do.  Without an interruption only the empty queue does. */
  lemma {:induction false} JoinIffEmpty(size: nat, past: seq<Action>)
    requires size > 0 && ValidRun(Start(size), past)
    ensures var s := Final(Start(size), past);
            && Agrees(s)
            && (s.p.q.shutdown ==>
                  ((exists run | ValidRun(s, run) :: Final(s, run).main.Joined?) <==>
                     s.p.q.items == [] || Leaving(s)))
            && (!s.interrupted && Leaving(s) ==> s.p.q.items == [])
  {
    hide P.Inv;
    StartInv(size);
    RunInv(Start(size), past);
    var s := Final(Start(size), past);
    if s.p.q.shutdown {
      if Ends(s) {
        var run := JoinIsReachable(s);
      } else {
        forall run | ValidRun(s, run) ensures !Final(s, run).main.Joined? {
          ShutdownHangs(s, run);
        }
      }
    }
  }

  /** After an interruption the join can return with a logged event still queued, never posted. */
  lemma LossIsReachable(size: nat, ev: Event) returns (run: seq<Action>)
    requires size > 0
    ensures ValidRun(Start(size), run)
    ensures var s := Final(Start(size), run);
            s.main.Joined? && s.log == [ev] && s.p.q.items == [ev] && s.finished == [] && s.commits == []
  {
    hide P.Inv;
    var s := Start(size);
    var exit := EarlyExitIsReachable(size);
    var gone := Final(s, exit);
    var push := PushOne(gone, ev);
    Concatenate(s, exit, push);
    var shut := ShutOne(WithEvent(gone, ev));
    Concatenate(s, exit + push, shut);
    var stopped := Final(s, exit + push + shut);
    StartInv(size);
    RunInv(s, exit + push + shut);
    var join := JoinIsReachable(stopped);
    run := exit + push + shut + join;
    Concatenate(s, exit + push + shut, join);
    Conservation(size, run);
    RunInv(s, run);
  }

  // --- what reaches the ledger -----------------------------------------------------------------------

  /** Every event pushed, or about to be, satisfies `good`. */
  predicate AllGood(s: System, good: Event -> bool)
  {
    && (forall ev | ev in s.p.pushed :: good(ev))
    && (s.main.Pushing? || s.main.Logging? ==> good(s.main.ev))
  }

  lemma NextGood(s: System, a: Action, good: Event -> bool)
    requires Inv(s) && Enabled(s, a) && AllGood(s, good) && (a.Produce? ==> good(a.ev))
    ensures AllGood(Next(s, a), good)
  {
    hide P.Ran, P.Locked, P.Inv, Accounted, Counts, Attempts;
    NextInv(s, a);
    var n := Next(s, a);
    if a.Queue? {
      PushedGrows(s, a.step);
    }
  }

  lemma PushedGrows(s: System, step: P.Step)
    requires Agrees(s) && Flags(s) && Enabled(s, Queue(step))
    ensures var n := P.Next(s.p, step);
            n.pushed == s.p.pushed || (s.main.Pushing? && n.pushed == s.p.pushed + [s.main.ev])
  {
    OnlyTwo(s, step);
  }

  lemma {:induction false} RunGood(s: System, run: seq<Action>, good: Event -> bool)
    requires Inv(s) && ValidRun(s, run) && AllGood(s, good)
    requires forall a | a in run && a.Produce? :: good(a.ev)
    ensures AllGood(Final(s, run), good)
    decreases |run|
  {
    if run != [] {
      assert run[0] in run;
      NextInv(s, run[0]);
      NextGood(s, run[0], good);
      RunGood(Next(s, run[0]), run[1..], good);
    }
  }

  lemma {:induction false} RepeatedFrom(evs: seq<Event>, counts: seq<nat>)
    requires |evs| == |counts|
    ensures forall ev | ev in Repeated(evs, counts) :: ev in evs
  {
    if evs != [] {
      RepeatedFrom(evs[..|evs| - 1], counts[..|evs| - 1]);
    }
  }

  /** Only produced events are ever posted. */
  lemma {:induction false} CommitsAreProduced(size: nat, run: seq<Action>, good: Event -> bool)
    requires size > 0 && ValidRun(Start(size), run)
    requires forall a | a in run && a.Produce? :: good(a.ev)
    ensures forall ev | ev in Final(Start(size), run).commits :: good(ev)
  {
    hide P.Inv, Flags, Logged, Counts;
    StartInv(size);
    Conservation(size, run);
    RunGood(Start(size), run, good);
    var s := Final(Start(size), run);
    RepeatedFrom(s.finished, s.counts);
    forall ev | ev in s.commits ensures good(ev) {
      assert ev in s.finished || ev in InFlight(s);
      assert ev in s.p.pushed;
    }
  }
}
