/**
 The main service loop in the mutex build (service.c with threadpool.c): the
 cross-thread command queue with its wakeup flag, and the shutdown protocol with
 the thread pool.

 Enqueuing threads, pool workers and the loop thread are interleaved arbitrarily,
 one step per critical section, token write, wait, callback or semaphore
 operation. The event backend is a counter of pending wake tokens: a wait may
 return whenever a token or any other event is there, and takes away any number
 of tokens, then or while events are dispatched.
 */
module Service {
  datatype Cmd = Job(n: nat) | WorkerDone(w: nat)

  /** Where the loop thread is; `Run` holds the commands it has taken. */
  datatype LoopPc =
    | Test
    | Wait
    | Woken
    | Dispatch
    | Take
    | Run(todo: seq<Cmd>)
    | EventsDone
    | SemRead
    | SemTake(sr: nat)
    | Decide
    | Exited

  datatype Phase = Looping | Leaving | Sending | Gone

  /** A pool worker; `joined` is set by workerDone after pthread_join. */
  datatype Worker = Worker(phase: Phase, stop: bool, joined: bool)

  /**
   `pending` counts the enqueuers that saw `mustwake` set and have not written
   their token yet; `enqueued` and `executed` are logs of commands.
   */
  datatype State = State(
    queue: seq<Cmd>,
    mustwake: bool,
    tokens: nat,
    pending: nat,
    pc: LoopPc,
    shutdownRef: int,
    timer: bool,
    shutdownrq: nat,
    threads: bool,
    rthreads: int,
    workers: seq<Worker>,
    enqueued: seq<Cmd>,
    executed: seq<Cmd>)

  datatype Action =
    | Enqueue(n: nat)
    | Send(lost: bool)
    | QuitElsewhere
    | WorkerLeave(w: nat)
    | WorkerEnqueue(w: nat)
    | WorkerSend(w: nat, lost: bool)
    | Wake(left: nat)
    | Drain(left: nat)
    | Signal
    | Timeout
    | Quit
    | Lock
    | Unlock
    | PoolDone
    | Advance

  // ----- The step relation -----

  /** Points where callbacks of the application run on the main thread. */
  predicate InCallback(s: State) {
    s.pc.Dispatch? || s.pc.EventsDone? || (s.pc.Run? && s.pc.todo != [] && s.pc.todo[0].Job?)
  }

  predicate Enabled(s: State, a: Action) {
    match a
    case Enqueue(_) => true
    case Send(lost) => s.pending > 0 && (lost ==> s.tokens > 0)
    case QuitElsewhere => true
    case WorkerLeave(w) => w < |s.workers| && s.workers[w].phase.Looping? && s.workers[w].stop
    case WorkerEnqueue(w) => w < |s.workers| && s.workers[w].phase.Leaving?
    case WorkerSend(w, lost) => w < |s.workers| && s.workers[w].phase.Sending? && (lost ==> s.tokens > 0)
    case Wake(left) => s.pc.Wait? && left <= s.tokens
    case Drain(left) => s.pc.Dispatch? && left <= s.tokens
    case Signal => s.pc.Dispatch?
    case Timeout => s.pc.Dispatch? && s.timer
    case Quit => InCallback(s)
    case Lock => InCallback(s)
    case Unlock => InCallback(s)
    case PoolDone => InCallback(s)
    case Advance =>
      && !s.pc.Wait? && !s.pc.Exited?
      && (s.pc.Run? && s.pc.todo != [] && s.pc.todo[0].WorkerDone? ==> Joinable(s, s.pc.todo[0].w))
  }

  /** pthread_join returns once the thread is gone. */
  predicate Joinable(s: State, w: nat) {
    w < |s.workers| && s.workers[w].phase.Gone?
  }

  /** enqueueCommand's critical section. */
  function Append(s: State, c: Cmd): State {
    s.(queue := s.queue + [c], mustwake := false, enqueued := s.enqueued + [c])
  }

  /** A token write may be refused only by a channel that is already full. */
  function AddToken(s: State, lost: bool): State {
    s.(tokens := if lost then s.tokens else s.tokens + 1)
  }

  function WithPhase(s: State, w: nat, p: Phase): State
    requires w < |s.workers|
  {
    s.(workers := s.workers[w := s.workers[w].(phase := p)])
  }

  function DoLock(s: State): State {
    s.(shutdownRef := if s.shutdownRef >= 0 then s.shutdownRef + 1 else s.shutdownRef, timer := true)
  }

  function DoUnlock(s: State): State {
    s.(shutdownRef := if s.shutdownRef > 0 then s.shutdownRef - 1 else s.shutdownRef)
  }

  /** PSC_ThreadPool_done: ask every worker not yet joined to stop, and hold the shutdown. */
  function DoPoolDone(s: State): State {
    if !s.threads then s
    else DoLock(s.(workers := seq(|s.workers|, i requires 0 <= i < |s.workers| =>
                                    if s.workers[i].joined then s.workers[i] else s.workers[i].(stop := true))))
  }

  /** workerDone on the main thread. */
  function DoWorkerDone(s: State, w: nat): State
    requires w < |s.workers|
  {
    var s' := s.(workers := s.workers[w := s.workers[w].(joined := true)], rthreads := s.rthreads - 1);
    if s'.rthreads != 0 then s' else DoUnlock(s'.(threads := false))
  }

  function DoAdvance(s: State): State
    requires Enabled(s, Advance)
  {
    match s.pc
    case Test => s.(pc := if s.shutdownRef != 0 then Wait else Exited)
    case Wait => s
    case Woken => s.(mustwake := false, pc := Dispatch)
    case Dispatch => s.(pc := Take)
    case Take => s.(pc := Run(s.queue), queue := [], mustwake := true)
    case Run(todo) =>
      if todo == [] then s.(pc := EventsDone)
      else
        var s' := s.(pc := Run(todo[1..]), executed := s.executed + [todo[0]]);
        if todo[0].WorkerDone? then DoWorkerDone(s', todo[0].w) else s'
    case EventsDone => s.(pc := SemRead)
    case SemRead => s.(pc := SemTake(s.shutdownrq))
    case SemTake(sr) =>
      s.(pc := Decide,
         shutdownrq := if sr <= s.shutdownrq then s.shutdownrq - sr else 0,
         shutdownRef := if sr != 0 && s.shutdownRef == -1 then 0 else s.shutdownRef)
    case Decide => (if s.shutdownRef == 0 then DoPoolDone(s) else s).(pc := Test)
    case Exited => s
  }

  function Next(s: State, a: Action): State
    requires Enabled(s, a)
  {
    match a
    case Enqueue(n) => Append(s, Job(n)).(pending := if s.mustwake then s.pending + 1 else s.pending)
    case Send(lost) => AddToken(s, lost).(pending := s.pending - 1)
    case QuitElsewhere => s.(shutdownrq := s.shutdownrq + 1)
    case WorkerLeave(w) => WithPhase(s, w, Leaving)
    case WorkerEnqueue(w) => WithPhase(Append(s, WorkerDone(w)), w, if s.mustwake then Sending else Gone)
    case WorkerSend(w, lost) => WithPhase(AddToken(s, lost), w, Gone)
    case Wake(left) => s.(tokens := left, pc := Woken)
    case Drain(left) => s.(tokens := left)
    case Signal => s.(shutdownRef := 0)
    case Timeout => s.(shutdownRef := 0)
    case Quit => s.(shutdownRef := if s.shutdownRef == -1 then 0 else s.shutdownRef)
    case Lock => DoLock(s)
    case Unlock => DoUnlock(s)
    case PoolDone => DoPoolDone(s)
    case Advance => DoAdvance(s)
  }

  /** The loop is entered with a running pool and an armed, empty queue. */
  predicate Init(s: State) {
    && s.queue == [] && s.mustwake && s.tokens == 0 && s.pending == 0
    && s.pc == Test && s.shutdownRef == -1 && !s.timer && s.shutdownrq == 0
    && s.threads && s.rthreads == |s.workers|
    && (forall w :: 0 <= w < |s.workers| ==> s.workers[w] == Worker(Looping, false, false))
    && s.enqueued == [] && s.executed == []
  }

  predicate Runs(s: State, schedule: seq<Action>, s': State)
    decreases |schedule|
  {
    if schedule == [] then s == s'
    else Enabled(s, schedule[0]) && Runs(Next(s, schedule[0]), schedule[1..], s')
  }

  // ----- The invariant -----

  function Todo(pc: LoopPc): seq<Cmd> {
    if pc.Run? then pc.todo else []
  }

  /** Some enqueuer has seen `mustwake` set and is about to write a token. */
  ghost predicate Committed(s: State) {
    s.pending > 0 || exists w :: 0 <= w < |s.workers| && s.workers[w].phase.Sending?
  }

  /** Between emptying the queue and the next return from the backend. */
  predicate Settled(pc: LoopPc) {
    !pc.Woken? && !pc.Dispatch? && !pc.Take?
  }

  ghost predicate WakeInv(s: State) {
    && (s.mustwake ==> s.queue == [])
    && (Settled(s.pc) ==> s.mustwake || s.tokens > 0 || Committed(s))
  }

  /** Nothing lost, nothing duplicated, nothing reordered. */
  predicate FifoInv(s: State) {
    s.executed + Todo(s.pc) + s.queue == s.enqueued
  }

  function Unjoined(ws: seq<Worker>): (n: nat)
    ensures n <= |ws|
  {
    if ws == [] then 0 else (if ws[0].joined then 0 else 1) + Unjoined(ws[1..])
  }

  /** A worker's done command is logged once, after it left; it is joined when that command runs. */
  predicate WorkerOk(s: State, w: nat)
    requires w < |s.workers|
  {
    var wk := s.workers[w];
    var mine := multiset(s.enqueued)[WorkerDone(w)];
    && mine == (if wk.phase.Looping? || wk.phase.Leaving? then 0 else 1)
    && (wk.joined <==> WorkerDone(w) in s.executed)
  }

  ghost predicate PoolInv(s: State) {
    && (forall w :: 0 <= w < |s.workers| ==> WorkerOk(s, w))
    && (forall w: nat :: WorkerDone(w) in s.enqueued ==> w < |s.workers|)
    && s.rthreads == Unjoined(s.workers)
    && (!s.threads ==> s.rthreads == 0)
    && (s.pc.Test? && s.shutdownRef == 0 ==> !s.threads)
    && (s.pc.Exited? ==> !s.threads)
  }

  ghost predicate Inv(s: State) {
    WakeInv(s) && FifoInv(s) && PoolInv(s)
  }

  lemma InitInv(s: State)
    requires Init(s)
    ensures Inv(s)
  {
    NoneJoined(s.workers);
  }

  lemma {:induction false} NoneJoined(ws: seq<Worker>)
    requires forall w :: 0 <= w < |ws| ==> !ws[w].joined
    ensures Unjoined(ws) == |ws|
  {
    if ws != [] { NoneJoined(ws[1..]); }
  }

  lemma {:induction false} UnjoinedUpdate(ws: seq<Worker>, w: nat, wk: Worker)
    requires w < |ws|
    ensures Unjoined(ws[w := wk]) == Unjoined(ws) - (if ws[w].joined then 0 else 1) + (if wk.joined then 0 else 1)
  {
    if w > 0 {
      assert ws[w := wk][1..] == ws[1..][w - 1 := wk];
      UnjoinedUpdate(ws[1..], w - 1, wk);
    } else {
      assert ws[w := wk][1..] == ws[1..];
    }
  }

  lemma {:induction false} SameJoined(ws: seq<Worker>, vs: seq<Worker>)
    requires |ws| == |vs| && forall w :: 0 <= w < |ws| ==> ws[w].joined == vs[w].joined
    ensures Unjoined(ws) == Unjoined(vs)
  {
    if ws != [] { SameJoined(ws[1..], vs[1..]); }
  }

  lemma {:induction false} AllJoined(ws: seq<Worker>)
    requires Unjoined(ws) == 0
    ensures forall w :: 0 <= w < |ws| ==> ws[w].joined
  {
    if ws != [] { AllJoined(ws[1..]); }
  }

  // ----- Every step keeps it -----

  lemma WakeKept(s: State, a: Action)
    requires WakeInv(s) && Enabled(s, a)
    ensures WakeInv(Next(s, a))
  {
    if a.Advance? { WakeKeptByLoop(s); } else { WakeKeptByOthers(s, a); }
  }

  lemma WakeKeptByLoop(s: State)
    requires WakeInv(s) && Enabled(s, Advance)
    ensures WakeInv(DoAdvance(s))
  {
    hide Committed, DoWorkerDone, DoPoolDone;
    var s' := DoAdvance(s);
    LoopLeavesWake(s);
    if Settled(s'.pc) && Settled(s.pc) && !s.mustwake && s.tokens == 0 { StillCommitted(s, s'); }
  }

  /** The loop's own steps change neither tokens nor phases, and `mustwake` and queue only as they say. */
  lemma LoopLeavesWake(s: State)
    requires Enabled(s, Advance)
    ensures var s' := DoAdvance(s);
            && s'.pending == s.pending && s'.tokens == s.tokens && |s'.workers| == |s.workers|
            && (forall w :: 0 <= w < |s.workers| ==> s'.workers[w].phase == s.workers[w].phase)
            && (!s.pc.Woken? && !s.pc.Take? ==> s'.mustwake == s.mustwake && s'.queue == s.queue)
            && (s.pc.Decide? ==> s'.pc.Test?) && (s.pc.Run? ==> s'.pc.Run? || s'.pc.EventsDone?)
  {}

  /** The workers that are about to write a token still are. */
  lemma StillCommitted(s: State, s': State)
    requires Committed(s) && s'.pending == s.pending && |s'.workers| == |s.workers|
    requires forall w :: 0 <= w < |s.workers| ==> s'.workers[w].phase == s.workers[w].phase
    ensures Committed(s')
  {
    if s.pending == 0 {
      var w :| 0 <= w < |s.workers| && s.workers[w].phase.Sending?;
      assert s'.workers[w].phase.Sending?;
    }
  }

  lemma WakeKeptByOthers(s: State, a: Action)
    requires WakeInv(s) && Enabled(s, a) && !a.Advance?
    ensures WakeInv(Next(s, a))
  {
    var s' := Next(s, a);
    if Settled(s'.pc) && !s'.mustwake && s'.tokens == 0 && !s.mustwake && s.tokens == 0 && s.pending == 0 {
      var w :| 0 <= w < |s.workers| && s.workers[w].phase.Sending?;
      assert s'.workers[w].phase.Sending?;
    }
    if a.WorkerEnqueue? { assert s'.workers[a.w].phase == if s.mustwake then Sending else Gone; }
  }

  lemma FifoKept(s: State, a: Action)
    requires FifoInv(s) && Enabled(s, a)
    ensures FifoInv(Next(s, a))
  {
    if a.Advance? { FifoKeptByLoop(s); } else { FifoKeptByOthers(s, a); }
  }

  lemma FifoKeptByOthers(s: State, a: Action)
    requires FifoInv(s) && Enabled(s, a) && !a.Advance?
    ensures FifoInv(Next(s, a))
  {
    var s' := Next(s, a);
    if a.Enqueue? || a.WorkerEnqueue? {
      var c := if a.Enqueue? then Job(a.n) else WorkerDone(a.w);
      assert s'.executed + Todo(s'.pc) + s'.queue == (s.executed + Todo(s.pc) + s.queue) + [c];
    }
  }

  lemma FifoKeptByLoop(s: State)
    requires FifoInv(s) && Enabled(s, Advance)
    ensures FifoInv(DoAdvance(s))
  {
    hide DoPoolDone, DoWorkerDone;
    var s' := DoAdvance(s);
    PoolLeavesQueue(s);
    if s.pc.Run? && s.pc.todo != [] {
      MovedOne(s.executed, s.pc.todo, s.queue);
      var c := s.pc.todo[0];
      if c.WorkerDone? { DoneLeavesQueue(s.(pc := Run(s.pc.todo[1..]), executed := s.executed + [c]), c.w); }
    } else if s.pc.Take? {
      assert s.executed + [] + s.queue == s.executed + s.queue + [];
    } else {
      assert s'.executed == s.executed && Todo(s'.pc) == Todo(s.pc) && s'.queue == s.queue;
    }
  }

  lemma PoolLeavesQueue(s: State)
    ensures var s' := DoPoolDone(s);
            s'.executed == s.executed && s'.queue == s.queue && s'.enqueued == s.enqueued && s'.pc == s.pc
  {}

  lemma DoneLeavesQueue(s: State, w: nat)
    requires w < |s.workers|
    ensures var s' := DoWorkerDone(s, w);
            s'.executed == s.executed && s'.queue == s.queue && s'.enqueued == s.enqueued && s'.pc == s.pc
  {}

  lemma MovedOne(done: seq<Cmd>, todo: seq<Cmd>, queue: seq<Cmd>)
    requires todo != []
    ensures (done + [todo[0]]) + todo[1..] + queue == done + todo + queue
  {
    assert [todo[0]] + todo[1..] == todo;
  }

  lemma PoolDoneKept(s: State)
    requires PoolInv(s)
    ensures var s' := DoPoolDone(s);
            && |s'.workers| == |s.workers|
            && (forall w :: 0 <= w < |s.workers| ==> WorkerOk(s', w))
            && s'.rthreads == Unjoined(s'.workers) && s'.threads == s.threads
            && (s.shutdownRef == 0 && s.threads ==> s'.shutdownRef == 1)
  {
    var s' := DoPoolDone(s);
    SameJoined(s.workers, s'.workers);
    forall w | 0 <= w < |s.workers| ensures WorkerOk(s', w) { assert WorkerOk(s, w); }
  }

  lemma WorkerDoneKept(s: State)
    requires FifoInv(s) && PoolInv(s) && s.pc.Run? && s.pc.todo != [] && s.pc.todo[0].WorkerDone?
    requires Enabled(s, Advance)
    ensures PoolInv(DoAdvance(s))
  {
    hide FifoInv, Unjoined;
    var s' := DoAdvance(s);
    var w0 := s.pc.todo[0].w;
    MovedOne(s.executed, s.pc.todo, s.queue);
    assert WorkerOk(s, w0);
    NotYetExecuted(s, w0);
    UnjoinedUpdate(s.workers, w0, s.workers[w0].(joined := true));
    JoinedOne(s, s', w0);
  }

  lemma JoinedOne(s: State, s': State, w0: nat)
    requires (forall w :: 0 <= w < |s.workers| ==> WorkerOk(s, w)) && w0 < |s.workers|
    requires s'.workers == s.workers[w0 := s.workers[w0].(joined := true)]
    requires s'.enqueued == s.enqueued && s'.executed == s.executed + [WorkerDone(w0)]
    ensures forall w :: 0 <= w < |s'.workers| ==> WorkerOk(s', w)
  {
    forall w | 0 <= w < |s'.workers| ensures WorkerOk(s', w) { assert WorkerOk(s, w); }
  }

  /** A done command waiting to be run has not run before, so its worker is not joined yet. */
  lemma NotYetExecuted(s: State, w: nat)
    requires FifoInv(s) && PoolInv(s) && w < |s.workers|
    requires WorkerDone(w) in Todo(s.pc) + s.queue
    ensures WorkerDone(w) !in s.executed && !s.workers[w].joined
    ensures s.workers[w].phase.Sending? || s.workers[w].phase.Gone?
  {
    assert WorkerOk(s, w);
    var c := WorkerDone(w);
    assert s.enqueued == s.executed + (Todo(s.pc) + s.queue);
    assert multiset(s.enqueued)[c] == multiset(s.executed)[c] + multiset(Todo(s.pc) + s.queue)[c];
  }

  /** Steps that touch no worker, and log at most a job. */
  lemma PlainKept(s: State, s': State)
    requires PoolInv(s)
    requires s'.workers == s.workers && s'.rthreads == s.rthreads && s'.threads == s.threads
    requires s'.enqueued == s.enqueued || exists n :: s'.enqueued == s.enqueued + [Job(n)]
    requires s'.executed == s.executed || exists n :: s'.executed == s.executed + [Job(n)]
    requires s'.pc.Test? && s'.shutdownRef == 0 ==> !s'.threads
    requires s'.pc.Exited? ==> !s'.threads
    ensures PoolInv(s')
  {
    forall w | 0 <= w < |s'.workers| ensures WorkerOk(s', w) { assert WorkerOk(s, w); }
  }

  lemma WorkerStepKept(s: State, a: Action)
    requires PoolInv(s) && Enabled(s, a) && (a.WorkerLeave? || a.WorkerEnqueue? || a.WorkerSend?)
    ensures PoolInv(Next(s, a))
  {
    var s' := Next(s, a);
    SameJoined(s.workers, s'.workers);
    forall w | 0 <= w < |s'.workers| ensures WorkerOk(s', w) { assert WorkerOk(s, w); }
  }

  lemma DecideKept(s: State, s': State)
    requires PoolInv(s)
    requires s' == DoPoolDone(s) || (s.pc.Decide? && s' == DoPoolDone(s).(pc := Test))
    requires s'.pc.Test? ==> s.pc.Decide? && s.shutdownRef == 0
    requires s'.pc.Exited? ==> !s.threads
    ensures PoolInv(s')
  {
    PoolDoneKept(s);
    forall w | 0 <= w < |s'.workers| ensures WorkerOk(s', w) { assert WorkerOk(DoPoolDone(s), w); }
  }

  lemma PoolKept(s: State, a: Action)
    requires FifoInv(s) && PoolInv(s) && Enabled(s, a)
    ensures PoolInv(Next(s, a))
  {
    if a.PoolDone? || (a.Advance? && s.pc.Decide? && s.shutdownRef == 0) {
      DecideKept(s, Next(s, a));
    } else if a.Advance? && s.pc.Run? && s.pc.todo != [] && s.pc.todo[0].WorkerDone? {
      WorkerDoneKept(s);
    } else if a.WorkerLeave? || a.WorkerEnqueue? || a.WorkerSend? {
      WorkerStepKept(s, a);
    } else {
      PlainKept(s, Next(s, a));
    }
  }

  // ----- Whole runs -----

  lemma {:induction false} RunKeeps(s: State, schedule: seq<Action>, s': State)
    requires Inv(s) && Runs(s, schedule, s')
    ensures Inv(s')
    decreases |schedule|
  {
    if schedule != [] {
      WakeKept(s, schedule[0]);
      FifoKept(s, schedule[0]);
      PoolKept(s, schedule[0]);
      RunKeeps(Next(s, schedule[0]), schedule[1..], s');
    }
  }

  /**
   No lost wakeup: whenever the loop is blocked in the backend with commands
   queued, a wake token is there or some enqueuer is bound to write one.
   */
  lemma NoLostWakeup(s: State, schedule: seq<Action>, s': State)
    requires Init(s) && Runs(s, schedule, s')
    ensures s'.pc.Wait? && s'.queue != [] ==> s'.tokens > 0 || Committed(s')
  {
    InitInv(s);
    RunKeeps(s, schedule, s');
  }

  /** Executed, then taken, then queued commands are exactly those enqueued, in their order. */
  lemma ExactlyOnceFifo(s: State, schedule: seq<Action>, s': State)
    requires Init(s) && Runs(s, schedule, s')
    ensures s'.executed + Todo(s'.pc) + s'.queue == s'.enqueued
    ensures s'.executed <= s'.enqueued
  {
    InitInv(s);
    RunKeeps(s, schedule, s');
  }

  /**
   Orderly shutdown: however signals, quit requests, locks, unlocks, the shutdown
   timeout and the workers interleave, the loop exits only after every worker of
   the pool has been joined, each by its own done command, run exactly once.
   */
  lemma OrderlyShutdown(s: State, schedule: seq<Action>, s': State)
    requires Init(s) && Runs(s, schedule, s') && s'.pc.Exited?
    ensures !s'.threads && s'.rthreads == 0
    ensures forall w :: 0 <= w < |s'.workers| ==>
              s'.workers[w].joined && multiset(s'.executed)[WorkerDone(w)] == 1
  {
    InitInv(s);
    RunKeeps(s, schedule, s');
    AllJoined(s'.workers);
    forall w | 0 <= w < |s'.workers| ensures multiset(s'.executed)[WorkerDone(w)] == 1 {
      assert WorkerOk(s', w);
      assert s'.enqueued == s'.executed + (Todo(s'.pc) + s'.queue);
    }
  }

  /**
   Joining cannot deadlock: when the loop runs a worker's done command, that
   worker has left the queue's lock for good and at most has its token to write.
   */
  lemma JoinNeverWaitsForTheLoop(s: State, schedule: seq<Action>, s': State)
    requires Init(s) && Runs(s, schedule, s')
    requires s'.pc.Run? && s'.pc.todo != [] && s'.pc.todo[0].WorkerDone?
    ensures var w := s'.pc.todo[0].w;
            && w < |s'.workers| && !s'.workers[w].joined
            && (Enabled(s', Advance) || Enabled(s', WorkerSend(w, false)))
  {
    InitInv(s);
    RunKeeps(s, schedule, s');
    var c := s'.pc.todo[0];
    assert c in s'.enqueued;
    NotYetExecuted(s', c.w);
  }

  // ----- Quit requests from other threads -----

  predicate Enqueues(a: Action) {
    a.Enqueue? || a.WorkerEnqueue?
  }

  /** The schedule ends with a quit request from another thread that no command follows, or began with one. */
  predicate Unpaired(before: bool, schedule: seq<Action>)
    decreases |schedule|
  {
    if schedule == [] then before
    else Unpaired(schedule[0].QuitElsewhere? || (before && !Enqueues(schedule[0])), schedule[1..])
  }

  /** Every quit request from another thread is followed by a command. */
  ghost predicate QuitsPaired(schedule: seq<Action>) {
    forall i :: 0 <= i < |schedule| && schedule[i].QuitElsewhere? ==>
      exists j :: i < j < |schedule| && Enqueues(schedule[j])
  }

  lemma {:induction false} PairedIsNotUnpaired(before: bool, schedule: seq<Action>)
    requires QuitsPaired(schedule) && (before ==> exists j :: 0 <= j < |schedule| && Enqueues(schedule[j]))
    ensures !Unpaired(before, schedule)
    decreases |schedule|
  {
    if schedule != [] {
      var rest := schedule[1..];
      forall i | 0 <= i < |rest| && rest[i].QuitElsewhere? ensures exists j :: i < j < |rest| && Enqueues(rest[j]) {
        assert schedule[i + 1].QuitElsewhere?;
        var j :| i + 1 < j < |schedule| && Enqueues(schedule[j]);
        assert Enqueues(rest[j - 1]);
      }
      var next := schedule[0].QuitElsewhere? || (before && !Enqueues(schedule[0]));
      if next {
        var j :| 0 < j < |schedule| && Enqueues(schedule[j]);
        assert Enqueues(rest[j - 1]);
      }
      PairedIsNotUnpaired(next, rest);
    }
  }

  /** Quit requests that the loop has not counted in this round; it counts them after it took the commands. */
  function Uncounted(s: State): nat {
    match s.pc
    case SemTake(sr) => if sr < s.shutdownrq then s.shutdownrq - sr else 0
    case Decide => s.shutdownrq
    case Test => s.shutdownrq
    case Wait => s.shutdownrq
    case Woken => s.shutdownrq
    case Dispatch => s.shutdownrq
    case Take => s.shutdownrq
    case _ => 0
  }

  /** A request not counted came after the commands were taken: a command that follows it is still queued. */
  predicate QuitInv(s: State, unpaired: bool) {
    Uncounted(s) > 0 ==> unpaired || s.queue != []
  }

  lemma QuitKept(s: State, unpaired: bool, a: Action)
    requires QuitInv(s, unpaired) && Enabled(s, a)
    ensures QuitInv(Next(s, a), a.QuitElsewhere? || (unpaired && !Enqueues(a)))
  {
    if a.Advance? { QuitKeptByLoop(s, unpaired); } else { QuitKeptByOthers(s, unpaired, a); }
  }

  lemma QuitKeptByLoop(s: State, unpaired: bool)
    requires QuitInv(s, unpaired) && Enabled(s, Advance)
    ensures QuitInv(DoAdvance(s), unpaired)
  {}

  lemma QuitKeptByOthers(s: State, unpaired: bool, a: Action)
    requires QuitInv(s, unpaired) && Enabled(s, a) && !a.Advance?
    ensures QuitInv(Next(s, a), a.QuitElsewhere? || (unpaired && !Enqueues(a)))
  {}

  lemma {:induction false} QuitsKept(s: State, unpaired: bool, schedule: seq<Action>, s': State)
    requires QuitInv(s, unpaired) && Runs(s, schedule, s')
    ensures QuitInv(s', Unpaired(unpaired, schedule))
    decreases |schedule|
  {
    if schedule != [] {
      var a := schedule[0];
      QuitKept(s, unpaired, a);
      QuitsKept(Next(s, a), a.QuitElsewhere? || (unpaired && !Enqueues(a)), schedule[1..], s');
    }
  }

  /**
   A quit request from another thread that is followed by a command is noticed: as
   long as it is not counted, the loop is not blocked, or a token is there, or some
   enqueuer is bound to write one.
   */
  lemma PairedQuitWakes(s: State, schedule: seq<Action>, s': State)
    requires Init(s) && Runs(s, schedule, s') && QuitsPaired(schedule)
    ensures s'.pc.Wait? && s'.shutdownrq > 0 ==> s'.tokens > 0 || Committed(s')
  {
    QuitsKept(s, false, schedule, s');
    PairedIsNotUnpaired(false, schedule);
    NoLostWakeup(s, schedule, s');
  }

  /** The loop waits, nothing is there to wake it, and nobody is bound to. */
  ghost predicate Blocked(s: State) {
    s.pc.Wait? && s.tokens == 0 && !Committed(s)
  }

  /**
   A quit request from another thread never wakes the loop by itself: in any state in
   which the loop is blocked, any number of them leave it blocked, and uncounted.
   */
  lemma {:induction false} QuitsDoNotWake(s: State, schedule: seq<Action>, s': State)
    requires Blocked(s) && Runs(s, schedule, s') && forall i :: 0 <= i < |schedule| ==> schedule[i].QuitElsewhere?
    ensures Blocked(s') && s'.shutdownrq == s.shutdownrq + |schedule| && s'.shutdownRef == s.shutdownRef
    decreases |schedule|
  {
    if schedule != [] { QuitsDoNotWake(Next(s, schedule[0]), schedule[1..], s'); }
  }

  /** A blocked loop stays blocked until the backend returns for some other event, or a command is enqueued. */
  lemma BlockedUntilWoken(s: State, a: Action)
    requires Blocked(s) && Enabled(s, a) && !a.Wake? && !Enqueues(a)
    ensures Blocked(Next(s, a))
  {
    if a.WorkerLeave? {
      var s' := Next(s, a);
      forall w | 0 <= w < |s'.workers| ensures !s'.workers[w].phase.Sending? {
        assert !s.workers[w].phase.Sending?;
      }
    }
  }

  /**
   Without a command behind it, such a request can leave the loop blocked, with no
   token to come, until some other event happens.
   */
  lemma QuitElsewhereDoesNotWake(s: State)
    requires Init(s)
    ensures exists schedule, s' ::
              Runs(s, schedule, s') && s'.shutdownrq > 0 && s'.pc.Wait? && s'.tokens == 0 && !Committed(s')
  {
    var s1 := Next(s, Advance);
    var s2 := Next(s1, QuitElsewhere);
    var schedule := [Advance, QuitElsewhere];
    assert schedule[1..] == [QuitElsewhere] && schedule[1..][1..] == [];
    assert Runs(s2, schedule[1..][1..], s2);
    assert Runs(s1, schedule[1..], s2);
    assert Runs(s, schedule, s2);
  }

  // ----- Few tokens are written -----

  function Bit(b: bool): nat {
    if b then 1 else 0
  }

  function Senders(ws: seq<Worker>): nat {
    if ws == [] then 0 else Bit(ws[0].phase.Sending?) + Senders(ws[1..])
  }

  predicate Writes(a: Action) {
    a.Send? || a.WorkerSend?
  }

  /** Tokens written. */
  function Written(schedule: seq<Action>): nat {
    if schedule == [] then 0 else Bit(Writes(schedule[0])) + Written(schedule[1..])
  }

  /** Tokens that are gone: lost in writing, or read. */
  function Used(s: State, schedule: seq<Action>): int
    decreases |schedule|
  {
    if schedule == [] || !Enabled(s, schedule[0]) then 0
    else UsedBy(s, schedule[0]) + Used(Next(s, schedule[0]), schedule[1..])
  }

  function UsedBy(s: State, a: Action): int {
    match a
    case Send(lost) => Bit(lost)
    case WorkerSend(_, lost) => Bit(lost)
    case Wake(left) => s.tokens - left
    case Drain(left) => s.tokens - left
    case _ => 0
  }

  /** How often the loop has taken the queue. */
  function Takes(s: State, schedule: seq<Action>): nat
    decreases |schedule|
  {
    if schedule == [] || !Enabled(s, schedule[0]) then 0
    else Bit(schedule[0].Advance? && s.pc.Take?) + Takes(Next(s, schedule[0]), schedule[1..])
  }

  /** Those about to be written count, and the one that the next command writes. */
  function Owed(s: State): nat {
    s.pending + Senders(s.workers) + Bit(s.mustwake)
  }

  lemma {:induction false} SendersUpdate(ws: seq<Worker>, w: nat, wk: Worker)
    requires w < |ws|
    ensures Senders(ws[w := wk]) == Senders(ws) - Bit(ws[w].phase.Sending?) + Bit(wk.phase.Sending?)
  {
    if w > 0 {
      assert ws[w := wk][1..] == ws[1..][w - 1 := wk];
      SendersUpdate(ws[1..], w - 1, wk);
    } else {
      assert ws[w := wk][1..] == ws[1..];
    }
  }

  lemma {:induction false} SameSenders(ws: seq<Worker>, vs: seq<Worker>)
    requires |ws| == |vs| && forall w :: 0 <= w < |ws| ==> ws[w].phase == vs[w].phase
    ensures Senders(ws) == Senders(vs)
  {
    if ws != [] { SameSenders(ws[1..], vs[1..]); }
  }

  lemma OwedStep(s: State, a: Action)
    requires Enabled(s, a)
    ensures Bit(Writes(a)) + Owed(Next(s, a)) <= Owed(s) + Bit(a.Advance? && s.pc.Take?)
  {
    hide Senders, DoPoolDone, DoWorkerDone;
    var s' := Next(s, a);
    if a.Advance? {
      LoopLeavesWake(s);
      SameSenders(s.workers, s'.workers);
    } else if a.PoolDone? {
      PoolDoneLeaves(s);
    } else if a.WorkerLeave? || a.WorkerEnqueue? || a.WorkerSend? {
      SendersUpdate(s.workers, a.w, s'.workers[a.w]);
      assert s'.workers == s.workers[a.w := s'.workers[a.w]];
    }
  }

  lemma PoolDoneLeaves(s: State)
    ensures var s' := DoPoolDone(s);
            Senders(s'.workers) == Senders(s.workers) && s'.pending == s.pending && s'.mustwake == s.mustwake
  {
    SameSenders(s.workers, DoPoolDone(s).workers);
  }

  /** At most one token is written for each time the queue is taken, and one more, however many commands come. */
  lemma {:induction false} FewTokens(s: State, schedule: seq<Action>, s': State)
    requires Runs(s, schedule, s')
    ensures Written(schedule) + Owed(s') <= Owed(s) + Takes(s, schedule)
    decreases |schedule|
  {
    hide Next, Enabled, Owed;
    if schedule != [] {
      OwedStep(s, schedule[0]);
      FewTokens(Next(s, schedule[0]), schedule[1..], s');
    }
  }

  lemma {:induction false} NoSenders(ws: seq<Worker>)
    requires forall w :: 0 <= w < |ws| ==> !ws[w].phase.Sending?
    ensures Senders(ws) == 0
  {
    if ws != [] { NoSenders(ws[1..]); }
  }

  lemma {:induction false} TokensConserved(s: State, schedule: seq<Action>, s': State)
    requires Runs(s, schedule, s')
    ensures s'.tokens + Used(s, schedule) == s.tokens + Written(schedule)
    decreases |schedule|
  {
    hide Next, Enabled, UsedBy, Writes;
    if schedule != [] {
      TokenStep(s, schedule[0]);
      TokensConserved(Next(s, schedule[0]), schedule[1..], s');
    }
  }

  lemma TokenStep(s: State, a: Action)
    requires Enabled(s, a)
    ensures Next(s, a).tokens + UsedBy(s, a) == s.tokens + Bit(Writes(a))
  {}

  /** Tokens are written at most once more than the queue was taken, and none appears or vanishes otherwise. */
  lemma TokenAccount(s: State, schedule: seq<Action>, s': State)
    requires Init(s) && Runs(s, schedule, s')
    ensures Written(schedule) <= 1 + Takes(s, schedule) && s'.tokens == Written(schedule) - Used(s, schedule)
  {
    NoSenders(s.workers);
    FewTokens(s, schedule, s');
    TokensConserved(s, schedule, s');
  }
}
