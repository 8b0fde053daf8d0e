/**
 What the shutdown of the service loop comes to (service.c with threadpool.c): the
 counter that holds it up is an account of the schedule, and once nothing but the
 pool holds it up, the loop and the workers finish it by their own steps.
 */
module ServiceShutdown {
  import opened Service

  // ----- The account -----

  /** What a step means for the shutdown. */
  datatype Mark = Starts | Restarts | Locks | Unlocks | Nothing

  /**
   A signal and the timeout start it anew, a quit request starts it, as does one of
   another thread when it is counted. The pool locks when it is told to stop, and
   unlocks when its last worker is joined.
   */
  function MarkOf(s: State, a: Action): Mark {
    match a
    case Signal => Restarts
    case Timeout => Restarts
    case Quit => Starts
    case Lock => Locks
    case Unlock => Unlocks
    case PoolDone => if s.threads then Locks else Nothing
    case Advance =>
      (match s.pc
       case SemTake(sr) => if sr > 0 then Starts else Nothing
       case Decide => if s.shutdownRef == 0 && s.threads then Locks else Nothing
       case Run(todo) => if todo != [] && todo[0].WorkerDone? && s.rthreads == 1 then Unlocks else Nothing
       case _ => Nothing)
    case _ => Nothing
  }

  function Marks(s: State, schedule: seq<Action>): (ms: seq<Mark>)
    ensures |ms| <= |schedule|
    decreases |schedule|
  {
    if schedule == [] || !Enabled(s, schedule[0]) then []
    else [MarkOf(s, schedule[0])] + Marks(Next(s, schedule[0]), schedule[1..])
  }

  predicate Begins(m: Mark) {
    m.Starts? || m.Restarts?
  }

  predicate NoneBegins(ms: seq<Mark>) {
    forall i :: 0 <= i < |ms| ==> !Begins(ms[i])
  }

  /** Locks not returned; an unlock without a lock counts for nothing. */
  function Outstanding(ms: seq<Mark>): nat {
    if ms == [] then 0
    else
      var n := Outstanding(ms[..|ms| - 1]);
      match ms[|ms| - 1]
      case Locks => n + 1
      case Unlocks => if n > 0 then n - 1 else 0
      case _ => n
  }

  function CountOf(ms: seq<Mark>, m: Mark): nat {
    if ms == [] then 0 else CountOf(ms[..|ms| - 1], m) + if ms[|ms| - 1] == m then 1 else 0
  }

  /** Where no unlock came before its lock, these are the locks less the unlocks. */
  lemma {:induction false} OutstandingIs(ms: seq<Mark>)
    requires forall k :: 0 <= k <= |ms| ==> CountOf(ms[..k], Unlocks) <= CountOf(ms[..k], Locks)
    ensures Outstanding(ms) == CountOf(ms, Locks) - CountOf(ms, Unlocks)
  {
    if ms != [] {
      var front := ms[..|ms| - 1];
      forall k | 0 <= k <= |front| ensures CountOf(front[..k], Unlocks) <= CountOf(front[..k], Locks) {
        assert front[..k] == ms[..k];
      }
      OutstandingIs(front);
      assert ms[..|ms|] == ms;
    }
  }

  /** `shutdownRef` after these marks. */
  function RefAfter(ms: seq<Mark>): int {
    if NoneBegins(ms) then -1 else Outstanding(ms[LastBegin(ms) + 1..])
  }

  /** Where the shutdown was started, or last started anew. */
  function LastBegin(ms: seq<Mark>): (n: nat)
    requires !NoneBegins(ms)
    ensures n < |ms| && Begins(ms[n]) && (ms[n].Starts? ==> NoneBegins(ms[..n]))
    ensures forall i :: n < i < |ms| ==> !ms[i].Restarts?
  {
    var m, front := ms[|ms| - 1], ms[..|ms| - 1];
    if m.Restarts? || NoneBegins(front) then |ms| - 1
    else
      var n := LastBegin(front);
      assert front[..n] == ms[..n];
      n
  }

  lemma OneMoreMark(ms: seq<Mark>, m: Mark)
    ensures var n, n' := RefAfter(ms), RefAfter(ms + [m]);
            n' == match m
                  case Restarts => 0
                  case Starts => if n == -1 then 0 else n
                  case Locks => if n >= 0 then n + 1 else n
                  case Unlocks => if n > 0 then n - 1 else n
                  case Nothing => n
  {
    var ms' := ms + [m];
    assert ms'[..|ms|] == ms;
    if NoneBegins(ms') {
      assert NoneBegins(ms) by { forall i | 0 <= i < |ms| ensures !Begins(ms[i]) { assert ms'[i] == ms[i]; } }
      assert ms'[|ms|] == m;
    } else if !NoneBegins(ms) && !m.Restarts? {
      var i :| 0 <= i < |ms| && Begins(ms[i]);
      assert ms'[i] == ms[i];
      var k := LastBegin(ms);
      assert ms'[k + 1..] == ms[k + 1..] + [m];
      assert (ms[k + 1..] + [m])[..|ms| - k - 1] == ms[k + 1..];
    } else {
      assert ms'[|ms| + 1..] == [];
    }
  }

  lemma {:induction false} RefFollows(s: State, schedule: seq<Action>, s': State, before: seq<Mark>)
    requires Runs(s, schedule, s') && s.shutdownRef == RefAfter(before)
    ensures |Marks(s, schedule)| == |schedule| && s'.shutdownRef == RefAfter(before + Marks(s, schedule))
    decreases |schedule|
  {
    hide RefAfter;
    if schedule == [] {
      assert before + [] == before;
    } else {
      var a := schedule[0];
      OneMoreMark(before, MarkOf(s, a));
      StepMarked(s, a);
      RefFollows(Next(s, a), schedule[1..], s', before + [MarkOf(s, a)]);
      assert (before + [MarkOf(s, a)]) + Marks(Next(s, a), schedule[1..]) == before + Marks(s, schedule);
    }
  }

  lemma StepMarked(s: State, a: Action)
    requires Enabled(s, a)
    ensures var n, n' := s.shutdownRef, Next(s, a).shutdownRef;
            n' == match MarkOf(s, a)
                  case Restarts => 0
                  case Starts => if n == -1 then 0 else n
                  case Locks => if n >= 0 then n + 1 else n
                  case Unlocks => if n > 0 then n - 1 else n
                  case Nothing => n
  {}

  /**
   The counter is -1 as long as the shutdown has not begun: no signal, timeout, quit
   request or counted request of another thread. From then on it is the number of
   locks not returned since it began, or since the last signal or timeout.
   */
  lemma RefIsAccount(s: State, schedule: seq<Action>, s': State)
    requires Init(s) && Runs(s, schedule, s')
    ensures s'.shutdownRef == RefAfter(Marks(s, schedule))
    ensures |Marks(s, schedule)| == |schedule|
  {
    RefFollows(s, schedule, s', []);
    assert [] + Marks(s, schedule) == Marks(s, schedule);
  }

  /** The timeout is set by the first lock and stays set. */
  lemma TimerIffLocked(s: State, schedule: seq<Action>, s': State)
    requires Init(s) && Runs(s, schedule, s')
    ensures s'.timer <==> Locks in Marks(s, schedule)
  {
    TimerFollows(s, schedule, s');
  }

  lemma {:induction false} TimerFollows(s: State, schedule: seq<Action>, s': State)
    requires Runs(s, schedule, s')
    ensures s'.timer <==> s.timer || Locks in Marks(s, schedule)
    decreases |schedule|
  {
    hide MarkOf, Next, Enabled;
    if schedule != [] {
      TimerStep(s, schedule[0]);
      TimerFollows(Next(s, schedule[0]), schedule[1..], s');
    }
  }

  lemma TimerStep(s: State, a: Action)
    requires Enabled(s, a)
    ensures Next(s, a).timer <==> s.timer || MarkOf(s, a).Locks?
  {}

  // ----- Progress -----

  /** The steps of the loop and of the workers, and the wakeups that a token brings. */
  predicate Quiet(s: State, a: Action) {
    && Enabled(s, a)
    && (a.Advance? || a.Send? || a.WorkerLeave? || a.WorkerEnqueue? || a.WorkerSend? || (a.Wake? && a.left < s.tokens))
  }

  predicate QuietRuns(s: State, schedule: seq<Action>, s': State)
    decreases |schedule|
  {
    if schedule == [] then s == s'
    else Quiet(s, schedule[0]) && QuietRuns(Next(s, schedule[0]), schedule[1..], s')
  }

  ghost predicate Stuck(s: State) {
    forall a :: !Quiet(s, a)
  }

  // Every quiet step comes nearer to the end.

  function Left(p: Phase): nat {
    match p
    case Looping => 3
    case Leaving => 2
    case Sending => 1
    case Gone => 0
  }

  function AllLeft(ws: seq<Worker>): nat {
    if ws == [] then 0 else Left(ws[0].phase) + AllLeft(ws[1..])
  }

  function Rank(pc: LoopPc): nat {
    match pc
    case Woken => 9
    case Dispatch => 8
    case Take => 7
    case Run(_) => 6
    case EventsDone => 5
    case SemRead => 4
    case SemTake(_) => 3
    case Decide => 2
    case Test => 1
    case _ => 0
  }

  predicate Nearer(s: State, s': State) {
    var w, w' := AllLeft(s.workers) + s.pending, AllLeft(s'.workers) + s'.pending;
    var c, c' := |s.queue| + |Todo(s.pc)|, |s'.queue| + |Todo(s'.pc)|;
    || w' < w
    || (w' == w && s'.tokens < s.tokens)
    || (w' == w && s'.tokens == s.tokens && c' < c)
    || (w' == w && s'.tokens == s.tokens && c' == c && Rank(s'.pc) < Rank(s.pc))
  }

  lemma {:induction false} LeftUpdate(ws: seq<Worker>, w: nat, wk: Worker)
    requires w < |ws|
    ensures AllLeft(ws[w := wk]) == AllLeft(ws) - Left(ws[w].phase) + Left(wk.phase)
  {
    if w > 0 {
      assert ws[w := wk][1..] == ws[1..][w - 1 := wk];
      LeftUpdate(ws[1..], w - 1, wk);
    } else {
      assert ws[w := wk][1..] == ws[1..];
    }
  }

  lemma {:induction false} SameLeft(ws: seq<Worker>, vs: seq<Worker>)
    requires |ws| == |vs| && forall w :: 0 <= w < |ws| ==> ws[w].phase == vs[w].phase
    ensures AllLeft(ws) == AllLeft(vs)
  {
    if ws != [] { SameLeft(ws[1..], vs[1..]); }
  }

  lemma QuietIsNearer(s: State, a: Action)
    requires Quiet(s, a)
    ensures Nearer(s, Next(s, a))
  {
    var s' := Next(s, a);
    if a.WorkerLeave? || a.WorkerEnqueue? || a.WorkerSend? {
      LeftUpdate(s.workers, a.w, s'.workers[a.w]);
      assert s'.workers == s.workers[a.w := s'.workers[a.w]];
    } else if a.Advance? {
      LoopIsNearer(s);
    }
  }

  lemma LoopIsNearer(s: State)
    requires Enabled(s, Advance)
    ensures Nearer(s, DoAdvance(s))
  {
    hide DoWorkerDone, DoPoolDone, AllLeft;
    LoopLeavesWake(s);
    SameLeft(s.workers, DoAdvance(s).workers);
    if s.pc.Run? && s.pc.todo != [] && s.pc.todo[0].WorkerDone? { WorkerDoneLeaves(s); }
  }

  lemma WorkerDoneLeaves(s: State)
    requires s.pc.Run? && s.pc.todo != [] && s.pc.todo[0].WorkerDone? && Enabled(s, Advance)
    ensures DoAdvance(s).queue == s.queue && DoAdvance(s).pc == Run(s.pc.todo[1..])
  {}

  // ----- The end -----

  /** The loop never blocks with the shutdown free to go on, and a pool with workers goes with its last one. */
  predicate NoIdleEnd(s: State) {
    && (s.pc.Wait? ==> s.shutdownRef != 0)
    && (s.threads && s.workers != [] ==> s.rthreads > 0)
  }

  /** Nothing holds up the shutdown but a pool whose workers are all told to stop. */
  predicate Closing(s: State) {
    || s.shutdownRef == 0
    || (s.shutdownRef == 1 && s.threads && AllTold(s.workers))
  }

  predicate AllTold(ws: seq<Worker>) {
    forall w :: 0 <= w < |ws| ==> ws[w].joined || ws[w].stop
  }

  lemma NoIdleEndKept(s: State, a: Action)
    requires Inv(s) && NoIdleEnd(s) && Enabled(s, a)
    ensures NoIdleEnd(Next(s, a))
  {
    if a.Advance? { NoIdleEndByLoop(s); } else { NoIdleEndByOthers(s, a); }
  }

  lemma NoIdleEndByLoop(s: State)
    requires Inv(s) && NoIdleEnd(s) && Enabled(s, Advance)
    ensures NoIdleEnd(DoAdvance(s))
  {
    hide WakeInv, FifoInv, Committed, WorkerOk, Unjoined;
  }

  lemma NoIdleEndByOthers(s: State, a: Action)
    requires Inv(s) && NoIdleEnd(s) && Enabled(s, a) && !a.Advance?
    ensures NoIdleEnd(Next(s, a))
  {
    hide WakeInv, FifoInv, Committed, WorkerOk, Unjoined;
  }

  lemma ClosingKept(s: State, a: Action)
    requires Closing(s) && Quiet(s, a)
    ensures Closing(Next(s, a))
  {}

  /** When nothing but the pool holds up the shutdown, no quiet step is possible only after the exit. */
  lemma StuckIsExited(s: State)
    requires Inv(s) && NoIdleEnd(s) && Closing(s) && Stuck(s) && s.workers != []
    ensures s.pc.Exited?
  {
    if s.pc.Wait? {
      assert !Quiet(s, Wake(0)) && !Quiet(s, Send(false));
      forall w | 0 <= w < |s.workers|
        ensures !s.workers[w].phase.Sending? && !s.workers[w].phase.Leaving?
                && (s.workers[w].phase.Looping? ==> !s.workers[w].stop)
      {
        assert !Quiet(s, WorkerLeave(w)) && !Quiet(s, WorkerEnqueue(w)) && !Quiet(s, WorkerSend(w, false));
      }
      assert s.queue == [] && s.executed + [] + [] == s.executed;
      forall w | 0 <= w < |s.workers| ensures s.workers[w].joined {
        assert WorkerOk(s, w);
      }
      NoneLeft(s.workers);
      assert false;
    } else if !s.pc.Exited? {
      LoopMoves(s);
    }
  }

  /** Outside the backend the loop can go on, or the worker it waits for can. */
  lemma LoopMoves(s: State)
    requires Inv(s) && !s.pc.Wait? && !s.pc.Exited?
    ensures exists a :: Quiet(s, a)
  {
    if Enabled(s, Advance) {
      assert Quiet(s, Advance);
    } else {
      var w := s.pc.todo[0].w;
      assert WorkerDone(w) in s.enqueued;
      NotYetExecuted(s, w);
      assert Quiet(s, WorkerSend(w, false));
    }
  }

  lemma {:induction false} NoneLeft(ws: seq<Worker>)
    requires forall w :: 0 <= w < |ws| ==> ws[w].joined
    ensures Unjoined(ws) == 0
  {
    if ws != [] { NoneLeft(ws[1..]); }
  }

  // ----- Whole runs -----

  lemma SameSize(s: State, a: Action)
    requires Enabled(s, a)
    ensures |Next(s, a).workers| == |s.workers|
  {}

  lemma StepReached(s: State, a: Action)
    requires Inv(s) && NoIdleEnd(s) && Enabled(s, a)
    ensures Inv(Next(s, a)) && NoIdleEnd(Next(s, a)) && |Next(s, a).workers| == |s.workers|
  {
    hide WakeInv, FifoInv, PoolInv, NoIdleEnd, Next, Enabled;
    SameSize(s, a);
    WakeKept(s, a);
    FifoKept(s, a);
    PoolKept(s, a);
    NoIdleEndKept(s, a);
  }

  lemma {:induction false} ReachedKeeps(s: State, schedule: seq<Action>, s': State)
    requires Inv(s) && NoIdleEnd(s) && Runs(s, schedule, s')
    ensures Inv(s') && NoIdleEnd(s') && |s'.workers| == |s.workers|
    decreases |schedule|
  {
    hide Inv, NoIdleEnd, Next, Enabled;
    if schedule != [] {
      StepReached(s, schedule[0]);
      ReachedKeeps(Next(s, schedule[0]), schedule[1..], s');
    }
  }

  lemma {:induction false} QuietKeeps(s: State, schedule: seq<Action>, s': State)
    requires Closing(s) && QuietRuns(s, schedule, s')
    ensures Closing(s') && Runs(s, schedule, s')
    decreases |schedule|
  {
    hide Closing, Enabled;
    if schedule != [] {
      ClosingKept(s, schedule[0]);
      QuietKeeps(Next(s, schedule[0]), schedule[1..], s');
    }
  }

  lemma {:induction false} QuietEnd(s: State) returns (schedule: seq<Action>, s': State)
    ensures QuietRuns(s, schedule, s') && Stuck(s')
    decreases AllLeft(s.workers) + s.pending, s.tokens, |s.queue| + |Todo(s.pc)|, Rank(s.pc)
  {
    hide Quiet;
    if Stuck(s) {
      schedule, s' := [], s;
    } else {
      var a :| Quiet(s, a);
      QuietIsNearer(s, a);
      var rest;
      rest, s' := QuietEnd(QuietNext(s, a));
      schedule := [a] + rest;
      assert schedule[1..] == rest;
    }
  }

  function QuietNext(s: State, a: Action): State
    requires Quiet(s, a)
  {
    Next(s, a)
  }

  /**
   Once a shutdown is held up by nothing but a pool whose workers are told to stop, the
   steps of the loop and of the workers complete it, without any event from outside:
   no run of them goes on for ever (`QuietIsNearer`), and where none is possible any
   more, the loop has exited.
   */
  lemma ShutdownCompletes(s0: State, before: seq<Action>, s: State, schedule: seq<Action>, s': State)
    requires Init(s0) && s0.workers != [] && Runs(s0, before, s) && Closing(s)
    requires QuietRuns(s, schedule, s') && Stuck(s')
    ensures s'.pc.Exited?
  {
    InitInv(s0);
    ReachedKeeps(s0, before, s);
    QuietKeeps(s, schedule, s');
    ReachedKeeps(s, schedule, s');
    StuckIsExited(s');
  }

  /** And there is such a run. */
  lemma ShutdownReaches(s0: State, before: seq<Action>, s: State) returns (schedule: seq<Action>, s': State)
    requires Init(s0) && s0.workers != [] && Runs(s0, before, s) && Closing(s)
    ensures QuietRuns(s, schedule, s') && Runs(s, schedule, s') && s'.pc.Exited?
  {
    schedule, s' := QuietEnd(s);
    QuietKeeps(s, schedule, s');
    ShutdownCompletes(s0, before, s, schedule, s');
  }

  /** The pool was told to stop: by the application, or by the loop when the shutdown was free to go on. */
  predicate PoolTold(s: State, schedule: seq<Action>)
    decreases |schedule|
  {
    schedule != [] && Enabled(s, schedule[0])
    && ((MarkOf(s, schedule[0]).Locks? && !schedule[0].Lock?) || PoolTold(Next(s, schedule[0]), schedule[1..]))
  }

  lemma ToldKept(s: State, a: Action)
    requires AllTold(s.workers) && Enabled(s, a)
    ensures AllTold(Next(s, a).workers)
  {
    if a.Advance? { ToldKeptByLoop(s); }
  }

  lemma ToldKeptByLoop(s: State)
    requires AllTold(s.workers) && Enabled(s, Advance)
    ensures AllTold(DoAdvance(s).workers)
  {}

  lemma {:induction false} ToldStays(s: State, schedule: seq<Action>, s': State)
    requires AllTold(s.workers) && Runs(s, schedule, s')
    ensures AllTold(s'.workers)
    decreases |schedule|
  {
    hide AllTold, Next, Enabled;
    if schedule != [] {
      ToldKept(s, schedule[0]);
      ToldStays(Next(s, schedule[0]), schedule[1..], s');
    }
  }

  lemma {:induction false} ToldIsTold(s: State, schedule: seq<Action>, s': State)
    requires Runs(s, schedule, s') && PoolTold(s, schedule)
    ensures AllTold(s'.workers)
    decreases |schedule|
  {
    var next := Next(s, schedule[0]);
    if PoolTold(next, schedule[1..]) {
      ToldIsTold(next, schedule[1..], s');
    } else {
      ToldStays(next, schedule[1..], s');
    }
  }

  /**
   In terms of the schedule: after a signal, a timeout or a quit request, with all locks
   returned but that of a pool that was told to stop, the shutdown completes.
   */
  lemma NothingOutstandingCloses(s0: State, schedule: seq<Action>, s: State)
    requires Init(s0) && Runs(s0, schedule, s)
    requires !NoneBegins(Marks(s0, schedule))
    requires var n := Outstanding(Marks(s0, schedule)[LastBegin(Marks(s0, schedule)) + 1..]);
             n == 0 || (n == 1 && s.threads && PoolTold(s0, schedule))
    ensures Closing(s)
  {
    RefIsAccount(s0, schedule, s);
    if PoolTold(s0, schedule) { ToldIsTold(s0, schedule, s); }
  }

  /** Requests of other threads that were there when the loop looked are counted before it decides. */
  predicate RequestSeen(s: State) {
    || s.shutdownRef != -1
    || (s.pc.SemRead? && s.shutdownrq > 0)
    || (s.pc.SemTake? && s.pc.sr > 0)
  }

  lemma {:induction false} RequestStarts(s: State, schedule: seq<Action>, s': State)
    requires s.shutdownRef >= -1 && RequestSeen(s) && Runs(s, schedule, s') && s'.pc.Decide?
    ensures s'.shutdownRef != -1
    decreases |schedule|
  {
    hide Next, Enabled;
    if schedule != [] {
      RequestStays(s, schedule[0]);
      RequestStarts(Next(s, schedule[0]), schedule[1..], s');
    }
  }

  lemma RequestStays(s: State, a: Action)
    requires s.shutdownRef >= -1 && RequestSeen(s) && Enabled(s, a)
    ensures Next(s, a).shutdownRef >= -1 && RequestSeen(Next(s, a))
  {
    hide DoPoolDone, DoWorkerDone;
    if a.PoolDone? || (a.Advance? && s.pc.Decide?) { PoolLeavesRequests(s); }
    if a.Advance? && s.pc.Run? && s.pc.todo != [] && s.pc.todo[0].WorkerDone? {
      var c := s.pc.todo[0];
      DoneLeavesRequests(s.(pc := Run(s.pc.todo[1..]), executed := s.executed + [c]), c.w);
    }
  }

  /** The requests that the loop has taken. */
  function Counted(s: State, schedule: seq<Action>): nat
    decreases |schedule|
  {
    if schedule == [] || !Enabled(s, schedule[0]) then 0
    else (if schedule[0].Advance? && s.pc.SemTake? then s.pc.sr else 0) + Counted(Next(s, schedule[0]), schedule[1..])
  }

  function Requested(schedule: seq<Action>): nat
    decreases |schedule|
  {
    if schedule == [] then 0 else (if schedule[0].QuitElsewhere? then 1 else 0) + Requested(schedule[1..])
  }

  lemma RequestStep(s: State, a: Action)
    requires Enabled(s, a) && (s.pc.SemTake? ==> s.pc.sr <= s.shutdownrq)
    ensures var s' := Next(s, a);
            && s'.shutdownrq + (if a.Advance? && s.pc.SemTake? then s.pc.sr else 0)
               == s.shutdownrq + (if a.QuitElsewhere? then 1 else 0)
            && (s'.pc.SemTake? ==> s'.pc.sr <= s'.shutdownrq)
  {
    hide DoPoolDone, DoWorkerDone;
    if a.PoolDone? || (a.Advance? && s.pc.Decide?) { PoolLeavesRequests(s); }
    if a.Advance? && s.pc.Run? && s.pc.todo != [] && s.pc.todo[0].WorkerDone? {
      var c := s.pc.todo[0];
      DoneLeavesRequests(s.(pc := Run(s.pc.todo[1..]), executed := s.executed + [c]), c.w);
    }
  }

  lemma PoolLeavesRequests(s: State)
    ensures DoPoolDone(s).shutdownrq == s.shutdownrq && DoPoolDone(s).pc == s.pc
    ensures s.shutdownRef >= -1 ==> DoPoolDone(s).shutdownRef >= s.shutdownRef
  {}

  lemma DoneLeavesRequests(s: State, w: nat)
    requires w < |s.workers|
    ensures DoWorkerDone(s, w).shutdownrq == s.shutdownrq && DoWorkerDone(s, w).pc == s.pc
    ensures DoWorkerDone(s, w).shutdownRef == s.shutdownRef || DoWorkerDone(s, w).shutdownRef >= 0
  {}

  /** Every request is taken once, or still there. */
  lemma {:induction false} RequestsConserved(s: State, schedule: seq<Action>, s': State)
    requires Runs(s, schedule, s') && (s.pc.SemTake? ==> s.pc.sr <= s.shutdownrq)
    ensures s'.shutdownrq + Counted(s, schedule) == s.shutdownrq + Requested(schedule)
    decreases |schedule|
  {
    hide Next, Enabled;
    if schedule != [] {
      RequestStep(s, schedule[0]);
      RequestsConserved(Next(s, schedule[0]), schedule[1..], s');
    }
  }

  /** The loop waits with the lock of an empty pool, which nobody returns: only the timeout ends that. */
  lemma EmptyPoolWaits(s: State) returns (schedule: seq<Action>, s': State)
    requires Init(s) && s.workers == []
    ensures Runs(s, schedule, s') && Quit in schedule && Stuck(s') && !s'.pc.Exited? && s'.shutdownRef == 1
  {
    var s3 := Next(Next(Next(s, Advance), Wake(0)), Advance);
    var s4 := Next(s3, Quit);
    var rest;
    rest, s' := RoundEnds(s4);
    schedule := [Advance, Wake(0), Advance, Quit] + rest;
    assert schedule[1..][1..][1..][1..] == rest;
    assert Runs(s3, [Quit] + rest, s') by { assert ([Quit] + rest)[1..] == rest; }
    assert schedule[1..][1..][1..] == [Quit] + rest;
    assert schedule[3] == Quit;
  }

  /** A round of the loop with nothing to do, a shutdown begun and an empty pool. */
  lemma RoundEnds(s: State) returns (schedule: seq<Action>, s': State)
    requires s.pc.Dispatch? && s.shutdownRef == 0 && s.threads && s.workers == [] && s.queue == []
    requires s.tokens == s.pending == s.shutdownrq == 0
    ensures Runs(s, schedule, s') && Stuck(s') && s'.pc.Wait? && s'.shutdownRef == 1
  {
    var s4 := RoundHalf(s);
    var none: seq<Action> := [];
    s' := OtherHalf(s4);
    var rest := FourSteps(s4, s', none, s');
    schedule := FourSteps(s, s4, rest, s');
  }

  lemma OtherHalf(s: State) returns (s': State)
    requires s.pc.SemRead? && s.shutdownRef == 0 && s.threads && s.workers == [] && s.queue == []
    requires s.tokens == s.pending == s.shutdownrq == 0
    ensures Stuck(s') && s'.pc.Wait? && s'.shutdownRef == 1
    ensures Enabled(s, Advance) && Enabled(Next(s, Advance), Advance)
    ensures var s2 := Next(Next(s, Advance), Advance);
            Enabled(s2, Advance) && Enabled(Next(s2, Advance), Advance) && s' == Next(Next(s2, Advance), Advance)
  {
    s' := Next(Next(Next(Next(s, Advance), Advance), Advance), Advance);
  }

  lemma FourSteps(s: State, s4: State, rest: seq<Action>, s': State) returns (schedule: seq<Action>)
    requires Enabled(s, Advance) && Enabled(Next(s, Advance), Advance)
    requires var s2 := Next(Next(s, Advance), Advance);
             Enabled(s2, Advance) && Enabled(Next(s2, Advance), Advance) && s4 == Next(Next(s2, Advance), Advance)
    requires Runs(s4, rest, s')
    ensures Runs(s, schedule, s')
  {
    hide Enabled, Next;
    var s2 := Next(Next(s, Advance), Advance);
    var two := [Advance, Advance] + rest;
    assert two[1..][1..] == rest && two[1..] == [Advance] + rest && Runs(s2, two, s');
    schedule := [Advance, Advance] + two;
    assert schedule[1..][1..] == two && schedule[1..] == [Advance] + two;
  }

  lemma RoundHalf(s: State) returns (s': State)
    requires s.pc.Dispatch? && s.queue == []
    ensures s' == s.(pc := SemRead, mustwake := true)
    ensures Enabled(s, Advance) && Enabled(Next(s, Advance), Advance)
    ensures var s2 := Next(Next(s, Advance), Advance);
            Enabled(s2, Advance) && Enabled(Next(s2, Advance), Advance) && s' == Next(Next(s2, Advance), Advance)
  {
    s' := Next(Next(Next(Next(s, Advance), Advance), Advance), Advance);
  }
}
