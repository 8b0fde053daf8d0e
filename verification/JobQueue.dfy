/**
 The lock-free bounded job queue of the thread pool (threadpool.c): any number of
 enqueuing threads, some pool workers, interleaved at every successful
 compare-and-swap, load, store and semaphore operation. (A failed
 compare-and-swap changes nothing and is retried.)

 `tickets` logs accepted jobs in the order in which `enqpos` was advanced for
 them; `delivered` logs what the workers took out of the slots.
 */
module JobQueue {
  import opened Common
  import opened Arithmetic

  type Job = nat

  /** An enqueuer: outside, granted a place, given a slot (the slot of its ticket), or about to post. */
  datatype EPc = EIdle | EGranted(job: Job) | ESlot(job: Job, pos: nat, ticket: nat) | EStored

  /** A worker: outside, past sem_wait, given a slot to empty, or about to return the place. */
  datatype WPc = WIdle | WWoken | WSlot(pos: nat, ticket: nat) | WTook(ticket: nat)

  datatype State = State(
    sz: nat,
    avail: int,
    enqpos: nat,
    deqpos: nat,
    sem: nat,
    jobs: seq<Option<Job>>,
    enqueuers: seq<EPc>,
    workers: seq<WPc>,
    tickets: seq<Job>,
    deq: nat,
    returned: nat,
    delivered: seq<Job>)

  datatype Action = Grant(e: nat, job: Job) | Take(e: nat) | Store(e: nat) | Post(e: nat)
                  | SemWait(w: nat) | Claim(w: nat) | Exchange(w: nat) | Return(w: nat)

  // ----- The step relation -----

  predicate Enabled(s: State, a: Action) {
    match a
    case Grant(e, _) => e < |s.enqueuers| && s.enqueuers[e].EIdle? && s.avail > 0
    case Take(e) => e < |s.enqueuers| && s.enqueuers[e].EGranted?
    case Store(e) => e < |s.enqueuers| && s.enqueuers[e].ESlot? && s.enqueuers[e].pos < |s.jobs|
    case Post(e) => e < |s.enqueuers| && s.enqueuers[e].EStored?
    case SemWait(w) => w < |s.workers| && s.workers[w].WIdle? && s.sem > 0
    case Claim(w) => w < |s.workers| && s.workers[w].WWoken?
    case Exchange(w) => w < |s.workers| && s.workers[w].WSlot? && s.workers[w].pos < |s.jobs|
                        && s.jobs[s.workers[w].pos].Some?
    case Return(w) => w < |s.workers| && s.workers[w].WTook?
  }

  function Bump(pos: nat, sz: nat): nat {
    if pos + 1 == sz then 0 else pos + 1
  }

  function WithE(s: State, e: nat, pc: EPc): State
    requires e < |s.enqueuers|
  {
    s.(enqueuers := s.enqueuers[e := pc])
  }

  function WithW(s: State, w: nat, pc: WPc): State
    requires w < |s.workers|
  {
    s.(workers := s.workers[w := pc])
  }

  function Next(s: State, a: Action): State
    requires Enabled(s, a)
  {
    match a
    case Grant(e, job) => WithE(s, e, EGranted(job)).(avail := s.avail - 1)
    case Take(e) =>
      var job := s.enqueuers[e].job;
      WithE(s, e, ESlot(job, s.enqpos, |s.tickets|)).(enqpos := Bump(s.enqpos, s.sz), tickets := s.tickets + [job])
    case Store(e) =>
      WithE(s, e, EStored).(jobs := s.jobs[s.enqueuers[e].pos := Some(s.enqueuers[e].job)])
    case Post(e) => WithE(s, e, EIdle).(sem := s.sem + 1)
    case SemWait(w) => WithW(s, w, WWoken).(sem := s.sem - 1)
    case Claim(w) => WithW(s, w, WSlot(s.deqpos, s.deq)).(deqpos := Bump(s.deqpos, s.sz), deq := s.deq + 1)
    case Exchange(w) =>
      var pos := s.workers[w].pos;
      WithW(s, w, WTook(s.workers[w].ticket))
      .(jobs := s.jobs[pos := None], delivered := s.delivered + [s.jobs[pos].value])
    case Return(w) => WithW(s, w, WIdle).(avail := s.avail + 1, returned := s.returned + 1)
  }

  predicate Init(s: State) {
    && s.avail == s.sz && s.enqpos == 0 && s.deqpos == 0 && s.sem == 0
    && s.jobs == seq(s.sz, _ => None)
    && (forall e :: 0 <= e < |s.enqueuers| ==> s.enqueuers[e].EIdle?)
    && (forall w :: 0 <= w < |s.workers| ==> s.workers[w].WIdle?)
    && s.tickets == [] && s.deq == 0 && s.returned == 0 && s.delivered == []
  }

  predicate Runs(s: State, schedule: seq<Action>, s': State)
    decreases |schedule|
  {
    if schedule == [] then s == s'
    else Enabled(s, schedule[0]) && Runs(Next(s, schedule[0]), schedule[1..], s')
  }

  // ----- Counting places -----

  function Granted(es: seq<EPc>): nat {
    if es == [] then 0 else (if es[0].EGranted? then 1 else 0) + Granted(es[1..])
  }

  function Unposted(es: seq<EPc>): nat {
    if es == [] then 0 else (if es[0].ESlot? || es[0].EStored? then 1 else 0) + Unposted(es[1..])
  }

  function Woken(ws: seq<WPc>): nat {
    if ws == [] then 0 else (if ws[0].WWoken? then 1 else 0) + Woken(ws[1..])
  }

  /** Workers between claiming a slot and returning the place. */
  function Busy(ws: seq<WPc>): (n: nat)
    ensures n <= |ws|
  {
    if ws == [] then 0 else (if ws[0].WSlot? || ws[0].WTook? then 1 else 0) + Busy(ws[1..])
  }

  lemma {:induction false} EUpdate(es: seq<EPc>, e: nat, pc: EPc)
    requires e < |es|
    ensures Granted(es[e := pc]) == Granted(es) - (if es[e].EGranted? then 1 else 0) + (if pc.EGranted? then 1 else 0)
    ensures Unposted(es[e := pc]) == Unposted(es) - (if es[e].ESlot? || es[e].EStored? then 1 else 0)
                                     + (if pc.ESlot? || pc.EStored? then 1 else 0)
  {
    if e == 0 {
      assert es[e := pc][1..] == es[1..];
    } else {
      assert es[e := pc][1..] == es[1..][e - 1 := pc];
      EUpdate(es[1..], e - 1, pc);
    }
  }

  lemma {:induction false} WUpdate(ws: seq<WPc>, w: nat, pc: WPc)
    requires w < |ws|
    ensures Woken(ws[w := pc]) == Woken(ws) - (if ws[w].WWoken? then 1 else 0) + (if pc.WWoken? then 1 else 0)
    ensures Busy(ws[w := pc]) == Busy(ws) - (if ws[w].WSlot? || ws[w].WTook? then 1 else 0)
                                 + (if pc.WSlot? || pc.WTook? then 1 else 0)
  {
    if w == 0 {
      assert ws[w := pc][1..] == ws[1..];
    } else {
      assert ws[w := pc][1..] == ws[1..][w - 1 := pc];
      WUpdate(ws[1..], w - 1, pc);
    }
  }

  lemma {:induction false} BusyPair(ws: seq<WPc>, v: nat, w: nat)
    requires v < w < |ws| && (ws[v].WSlot? || ws[v].WTook?) && (ws[w].WSlot? || ws[w].WTook?)
    ensures Busy(ws) >= 2
  {
    if v > 0 {
      BusyPair(ws[1..], v - 1, w - 1);
    } else {
      BusyOne(ws[1..], w - 1);
    }
  }

  lemma {:induction false} BusyOne(ws: seq<WPc>, w: nat)
    requires w < |ws| && (ws[w].WSlot? || ws[w].WTook?)
    ensures Busy(ws) >= 1
  {
    if w > 0 { BusyOne(ws[1..], w - 1); }
  }

  lemma {:induction false} NoneCounted(es: seq<EPc>, ws: seq<WPc>)
    requires (forall e :: 0 <= e < |es| ==> es[e].EIdle?) && (forall w :: 0 <= w < |ws| ==> ws[w].WIdle?)
    ensures Granted(es) == 0 && Unposted(es) == 0 && Woken(ws) == 0 && Busy(ws) == 0
    decreases |es| + |ws|
  {
    if es != [] { NoneCounted(es[1..], ws); }
    if ws != [] { NoneCounted(es, ws[1..]); }
  }

  /** Holds in every build: places and posts are conserved. */
  predicate Counted(s: State) {
    && s.avail >= 0 && s.avail + Granted(s.enqueuers) + |s.tickets| - s.returned == s.sz
    && s.sem + Woken(s.workers) + s.deq + Unposted(s.enqueuers) == |s.tickets|
    && s.deq - s.returned == Busy(s.workers)
    && |s.jobs| == s.sz && (s.sz > 0 ==> s.enqpos == |s.tickets| % s.sz && s.deqpos == s.deq % s.sz)
  }

  lemma CountedKept(s: State, a: Action)
    requires Counted(s) && Enabled(s, a)
    ensures Counted(Next(s, a))
  {
    if a.Grant? || a.Take? || a.Store? || a.Post? { CountedByEnqueuer(s, a); } else { CountedByWorker(s, a); }
  }

  lemma CountedByEnqueuer(s: State, a: Action)
    requires Counted(s) && Enabled(s, a) && (a.Grant? || a.Take? || a.Store? || a.Post?)
    ensures Counted(Next(s, a))
  {
    match a
    case Grant(e, job) => EUpdate(s.enqueuers, e, EGranted(job));
    case Take(e) =>
      EUpdate(s.enqueuers, e, ESlot(s.enqueuers[e].job, s.enqpos, |s.tickets|));
      BumpMod(|s.tickets|, s.sz);
    case Store(e) => EUpdate(s.enqueuers, e, EStored);
    case Post(e) => EUpdate(s.enqueuers, e, EIdle);
  }

  lemma CountedByWorker(s: State, a: Action)
    requires Counted(s) && Enabled(s, a) && (a.SemWait? || a.Claim? || a.Exchange? || a.Return?)
    ensures Counted(Next(s, a))
  {
    match a
    case SemWait(w) => WUpdate(s.workers, w, WWoken);
    case Claim(w) =>
      WUpdate(s.workers, w, WSlot(s.deqpos, s.deq));
      BumpMod(s.deq, s.sz);
    case Exchange(w) => WUpdate(s.workers, w, WTook(s.workers[w].ticket));
    case Return(w) => WUpdate(s.workers, w, WIdle);
  }

  lemma BumpMod(n: nat, sz: nat)
    ensures sz > 0 ==> Bump(n % sz, sz) == (n + 1) % sz
  {
    if sz > 0 {
      var q := n / sz;
      if n % sz + 1 == sz { Quotient(n + 1, sz, q + 1, 0); } else { Quotient(n + 1, sz, q, n % sz + 1); }
    }
  }

  // ----- Slots, while at most one worker is busy -----

  /** An enqueuer holds a ticket nobody has taken from, its slot is empty, and nobody shares it. */
  predicate EnqueuerOk(s: State, e: nat)
    requires e < |s.enqueuers| && |s.jobs| == s.sz
  {
    var pc := s.enqueuers[e];
    pc.ESlot? ==>
      && |s.delivered| <= pc.ticket < |s.tickets| && s.tickets[pc.ticket] == pc.job
      && s.sz > 0 && pc.pos == pc.ticket % s.sz && s.jobs[pc.pos] == None
      && forall f :: 0 <= f < |s.enqueuers| && f != e && s.enqueuers[f].ESlot? ==> s.enqueuers[f].ticket != pc.ticket
  }

  predicate WorkerOk(s: State, w: nat)
    requires w < |s.workers|
  {
    var pc := s.workers[w];
    && (pc.WSlot? ==> s.sz > 0 && pc.ticket == |s.delivered| && s.deq == pc.ticket + 1 && pc.pos == pc.ticket % s.sz)
    && (pc.WTook? ==> s.deq == |s.delivered|)
  }

  /** A full slot holds the job of an undelivered ticket. */
  predicate SlotOk(s: State, p: nat)
    requires p < |s.jobs| == s.sz
  {
    s.jobs[p].Some? ==> exists t :: |s.delivered| <= t < |s.tickets| && Holds(s, p, t)
  }

  predicate Holds(s: State, p: nat, t: nat)
    requires p < |s.jobs| == s.sz && t < |s.tickets|
  {
    t % s.sz == p && s.jobs[p] == Some(s.tickets[t])
  }

  /** An undelivered ticket's job is in its slot, or with the enqueuer that is about to put it there. */
  predicate TicketOk(s: State, t: nat)
    requires t < |s.tickets| && |s.jobs| == s.sz
  {
    s.sz > 0 && (Holds(s, t % s.sz, t) || exists e :: 0 <= e < |s.enqueuers| && HasTicket(s.enqueuers[e], t))
  }

  predicate HasTicket(pc: EPc, t: nat) {
    pc.ESlot? && pc.ticket == t
  }

  ghost predicate Slotted(s: State) {
    && |s.jobs| == s.sz
    && (forall t :: |s.delivered| <= t < |s.tickets| ==> TicketOk(s, t))
    && s.delivered <= s.tickets
    && (s.deq == |s.delivered|
        || (s.deq == |s.delivered| + 1 && exists w :: 0 <= w < |s.workers| && s.workers[w].WSlot?))
    && (forall e :: 0 <= e < |s.enqueuers| ==> EnqueuerOk(s, e))
    && (forall w :: 0 <= w < |s.workers| ==> WorkerOk(s, w))
    && (forall p :: 0 <= p < |s.jobs| ==> SlotOk(s, p))
  }

  /** At most one worker, or at most one slot. */
  predicate Serial(s: State) {
    |s.workers| <= 1 || s.sz <= 1
  }

  lemma AtMostOneBusy(s: State)
    requires Counted(s) && Serial(s)
    ensures Busy(s.workers) <= 1
  {}

  /** Undelivered tickets fit into the slots; one place fewer for each granted enqueuer. */
  lemma TicketsFit(s: State)
    requires Counted(s) && Slotted(s) && Serial(s)
    ensures |s.tickets| - |s.delivered| + Granted(s.enqueuers) <= s.sz
  {
    AtMostOneBusy(s);
    if w :| 0 <= w < |s.workers| && s.workers[w].WSlot? { BusyOne(s.workers, w); }
  }

  /** Two undelivered tickets never share a slot. */
  lemma OwnSlot(s: State, t: nat, u: nat)
    requires Counted(s) && Slotted(s) && Serial(s)
    requires |s.delivered| <= t < |s.tickets| && |s.delivered| <= u < |s.tickets|
    requires s.sz > 0 && t % s.sz == u % s.sz
    ensures t == u
  {
    TicketsFit(s);
    if t < u { ModDistinct(t, u, s.sz); }
    if u < t { ModDistinct(u, t, s.sz); }
  }

  /** A granted enqueuer finds the slot of its coming ticket empty. */
  lemma NextSlotEmpty(s: State, e: nat)
    requires Counted(s) && Slotted(s) && Serial(s) && e < |s.enqueuers| && s.enqueuers[e].EGranted?
    ensures s.sz > 0 && s.jobs[|s.tickets| % s.sz] == None
    ensures forall t :: |s.delivered| <= t < |s.tickets| ==> t % s.sz != |s.tickets| % s.sz
  {
    TicketsFit(s);
    GrantedOne(s.enqueuers, e);
    forall t | |s.delivered| <= t < |s.tickets| ensures t % s.sz != |s.tickets| % s.sz {
      ModDistinct(t, |s.tickets|, s.sz);
    }
    assert SlotOk(s, |s.tickets| % s.sz);
  }

  lemma {:induction false} GrantedOne(es: seq<EPc>, e: nat)
    requires e < |es| && es[e].EGranted?
    ensures Granted(es) >= 1
  {
    if e > 0 { GrantedOne(es[1..], e - 1); }
  }

  lemma TakeSlots(s: State, e: nat)
    requires Counted(s) && Slotted(s) && Serial(s) && Enabled(s, Take(e))
    ensures Slotted(Next(s, Take(e)))
  {
    var s' := Next(s, Take(e));
    NextSlotEmpty(s, e);
    forall f | 0 <= f < |s.enqueuers| && s.enqueuers[f].ESlot? ensures s.enqueuers[f].ticket < |s.tickets| {
      assert EnqueuerOk(s, f);
    }
    forall f | 0 <= f < |s'.enqueuers| ensures EnqueuerOk(s', f) { assert EnqueuerOk(s, f); }
    forall w | 0 <= w < |s'.workers| ensures WorkerOk(s', w) { assert WorkerOk(s, w); }
    forall t | |s'.delivered| <= t < |s'.tickets| ensures TicketOk(s', t) {
      if t == |s.tickets| { assert HasTicket(s'.enqueuers[e], t); } else { TicketKept(s, s', t, e); }
    }
    forall p | 0 <= p < |s'.jobs| ensures SlotOk(s', p) {
      assert SlotOk(s, p);
      if s.jobs[p].Some? {
        var t :| |s.delivered| <= t < |s.tickets| && Holds(s, p, t);
        assert Holds(s', p, t);
      }
    }
  }

  lemma StoreSlots(s: State, e: nat)
    requires Counted(s) && Slotted(s) && Serial(s) && Enabled(s, Store(e))
    ensures Slotted(Next(s, Store(e)))
  {
    var s' := Next(s, Store(e));
    var ESlot(job, pos, ticket) := s.enqueuers[e];
    assert EnqueuerOk(s, e);
    forall f | 0 <= f < |s'.enqueuers| ensures EnqueuerOk(s', f) {
      assert EnqueuerOk(s, f);
      if f != e && s.enqueuers[f].ESlot? && s.enqueuers[f].pos == pos { OwnSlot(s, ticket, s.enqueuers[f].ticket); }
    }
    forall w | 0 <= w < |s'.workers| ensures WorkerOk(s', w) { assert WorkerOk(s, w); }
    forall t | |s'.delivered| <= t < |s'.tickets| ensures TicketOk(s', t) {
      assert TicketOk(s, t);
      if t != ticket && t % s.sz == pos { OwnSlot(s, t, ticket); }
      if t == ticket { assert Holds(s', pos, t); } else { TicketKept(s, s', t, e); }
    }
    forall p | 0 <= p < |s'.jobs| ensures SlotOk(s', p) {
      assert SlotOk(s, p);
      if p == pos {
        assert Holds(s', p, ticket);
      } else if s.jobs[p].Some? {
        var t :| |s.delivered| <= t < |s.tickets| && Holds(s, p, t);
        assert Holds(s', p, t);
      }
    }
  }

  lemma ExchangeSlots(s: State, w: nat)
    requires Counted(s) && Slotted(s) && Serial(s) && Enabled(s, Exchange(w))
    ensures Slotted(Next(s, Exchange(w)))
  {
    var s' := Next(s, Exchange(w));
    var pos, ticket := s.workers[w].pos, s.workers[w].ticket;
    assert WorkerOk(s, w) && SlotOk(s, pos);
    var t0 :| |s.delivered| <= t0 < |s.tickets| && Holds(s, pos, t0);
    assert ticket < |s.tickets|;
    OwnSlot(s, ticket, t0);
    assert s'.delivered == s.tickets[..ticket + 1];
    forall f | 0 <= f < |s'.enqueuers| ensures EnqueuerOk(s', f) { assert EnqueuerOk(s, f); }
    AtMostOneBusy(s);
    forall v | 0 <= v < |s'.workers| ensures WorkerOk(s', v) {
      assert WorkerOk(s, v);
      if v < w && (s.workers[v].WSlot? || s.workers[v].WTook?) { BusyPair(s.workers, v, w); }
      if w < v && (s.workers[v].WSlot? || s.workers[v].WTook?) { BusyPair(s.workers, w, v); }
    }
    forall t | |s'.delivered| <= t < |s'.tickets| ensures TicketOk(s', t) {
      assert TicketOk(s, t);
      if t % s.sz == pos { OwnSlot(s, t, ticket); }
      if e :| 0 <= e < |s.enqueuers| && HasTicket(s.enqueuers[e], t) { assert HasTicket(s'.enqueuers[e], t); }
      else { assert Holds(s', t % s.sz, t); }
    }
    forall p | 0 <= p < |s'.jobs| ensures SlotOk(s', p) {
      assert SlotOk(s, p);
      if p != pos && s.jobs[p].Some? {
        var t :| |s.delivered| <= t < |s.tickets| && Holds(s, p, t);
        assert Holds(s', p, t);
      }
    }
  }

  lemma ClaimSlots(s: State, w: nat)
    requires Counted(s) && Slotted(s) && Serial(s) && Enabled(s, Claim(w))
    ensures Slotted(Next(s, Claim(w)))
  {
    var s' := Next(s, Claim(w));
    CountedKept(s, Claim(w));
    AtMostOneBusy(s');
    assert s'.workers[w].WSlot?;
    forall v | 0 <= v < |s.workers| && v != w ensures !s.workers[v].WSlot? && !s.workers[v].WTook? {
      assert s'.workers[v] == s.workers[v];
      if s.workers[v].WSlot? || s.workers[v].WTook? {
        if v < w { BusyPair(s'.workers, v, w); } else { BusyPair(s'.workers, w, v); }
      }
    }
    assert s.deq == |s.delivered|;
    forall f | 0 <= f < |s'.enqueuers| ensures EnqueuerOk(s', f) { assert EnqueuerOk(s, f); }
    forall v | 0 <= v < |s'.workers| ensures WorkerOk(s', v) { assert WorkerOk(s, v); }
    forall p | 0 <= p < |s'.jobs| ensures SlotOk(s', p) { SlotKept(s, s', p); }
    forall t | |s'.delivered| <= t < |s'.tickets| ensures TicketOk(s', t) { TicketKept(s, s', t, |s.enqueuers|); }
  }

  /** A ticket not held by the enqueuer `e` that moves stays where it is. */
  lemma TicketKept(s: State, s': State, t: nat, e: nat)
    requires |s.jobs| == s.sz && |s'.jobs| == s'.sz == s.sz && s.tickets <= s'.tickets
    requires t < |s.tickets| && TicketOk(s, t)
    requires s'.jobs[t % s.sz] == s.jobs[t % s.sz]
    requires |s'.enqueuers| == |s.enqueuers|
    requires forall f :: 0 <= f < |s.enqueuers| && f != e ==> s'.enqueuers[f] == s.enqueuers[f]
    requires e < |s.enqueuers| ==> !HasTicket(s.enqueuers[e], t)
    ensures TicketOk(s', t)
  {
    if Holds(s, t % s.sz, t) {
      assert Holds(s', t % s.sz, t);
    } else {
      var f :| 0 <= f < |s.enqueuers| && HasTicket(s.enqueuers[f], t);
      assert HasTicket(s'.enqueuers[f], t);
    }
  }

  lemma SlotKept(s: State, s': State, p: nat)
    requires |s.jobs| == s.sz && p < s.sz && SlotOk(s, p)
    requires s'.sz == s.sz && s'.jobs == s.jobs && s'.delivered == s.delivered && s'.tickets == s.tickets
    ensures SlotOk(s', p)
  {
    if s.jobs[p].Some? {
      var t :| |s.delivered| <= t < |s.tickets| && Holds(s, p, t);
      assert Holds(s', p, t);
    }
  }

  /** The other steps change neither slots nor tickets. */
  lemma OtherSlots(s: State, a: Action)
    requires Counted(s) && Slotted(s) && Enabled(s, a)
    requires a.Grant? || a.Post? || a.SemWait? || a.Return?
    ensures Slotted(Next(s, a))
  {
    var s' := Next(s, a);
    if w :| 0 <= w < |s.workers| && s.workers[w].WSlot? { assert s'.workers[w].WSlot?; }
    forall f | 0 <= f < |s'.enqueuers| ensures EnqueuerOk(s', f) { assert EnqueuerOk(s, f); }
    forall v | 0 <= v < |s'.workers| ensures WorkerOk(s', v) { assert WorkerOk(s, v); }
    forall p | 0 <= p < |s'.jobs| ensures SlotOk(s', p) { SlotKept(s, s', p); }
    var moved := if a.Grant? || a.Post? then a.e else |s.enqueuers|;
    forall t | |s'.delivered| <= t < |s'.tickets| ensures TicketOk(s', t) { TicketKept(s, s', t, moved); }
  }

  lemma StepKeeps(s: State, a: Action)
    requires Counted(s) && Slotted(s) && Serial(s) && Enabled(s, a)
    ensures Counted(Next(s, a)) && Slotted(Next(s, a)) && Serial(Next(s, a))
  {
    CountedKept(s, a);
    match a
    case Take(e) => TakeSlots(s, e);
    case Store(e) => StoreSlots(s, e);
    case Claim(w) => ClaimSlots(s, w);
    case Exchange(w) => ExchangeSlots(s, w);
    case _ => OtherSlots(s, a);
  }

  lemma InitOk(s: State)
    requires Init(s)
    ensures Counted(s) && Slotted(s)
  {
    NoneCounted(s.enqueuers, s.workers);
  }

  lemma {:induction false} RunKeeps(s: State, schedule: seq<Action>, s': State)
    requires Counted(s) && Slotted(s) && Serial(s) && Runs(s, schedule, s')
    ensures Counted(s') && Slotted(s') && Serial(s')
    decreases |schedule|
  {
    if schedule != [] {
      StepKeeps(s, schedule[0]);
      RunKeeps(Next(s, schedule[0]), schedule[1..], s');
    }
  }

  // ----- Exactly once, exactly when -----

  /** No enqueuer is about to overwrite a job, and delivery follows ticket order. */
  ghost predicate Sound(s: State) {
    && (forall e :: 0 <= e < |s.enqueuers| && s.enqueuers[e].ESlot? ==>
          s.enqueuers[e].pos < |s.jobs| && s.jobs[s.enqueuers[e].pos] == None)
    && s.delivered <= s.tickets
  }

  /**
   With one worker (or one slot), in every interleaving no untaken slot is
   overwritten, every accepted job is delivered at most once, in ticket order, and
   an undelivered one is in its slot or in the hands of its enqueuer; a place is
   refused only when `sz` accepted jobs have not been handed back yet.
   */
  lemma ExactlyOnce(s: State, schedule: seq<Action>, s': State)
    requires Init(s) && Serial(s) && Runs(s, schedule, s')
    ensures Sound(s') && |s'.jobs| == s'.sz
    ensures forall t :: |s'.delivered| <= t < |s'.tickets| ==> TicketOk(s', t)
    ensures s'.avail == 0 ==> Granted(s'.enqueuers) + |s'.tickets| - s'.returned == s'.sz
    ensures s'.deq <= |s'.tickets|
  {
    InitOk(s);
    RunKeeps(s, schedule, s');
    forall e | 0 <= e < |s'.enqueuers| && s'.enqueuers[e].ESlot?
      ensures s'.enqueuers[e].pos < |s'.jobs| && s'.jobs[s'.enqueuers[e].pos] == None
    {
      assert EnqueuerOk(s', e);
      assert s'.enqueuers[e].pos == s'.enqueuers[e].ticket % s'.sz;
    }
  }

  ghost predicate Reaches(s: State, s': State) {
    exists schedule :: Runs(s, schedule, s')
  }

  lemma {:induction false} Appended(s: State, one: seq<Action>, mid: State, two: seq<Action>, end: State)
    requires Runs(s, one, mid) && Runs(mid, two, end)
    ensures Runs(s, one + two, end)
    decreases |one|
  {
    if one == [] {
      assert one + two == two;
    } else {
      assert (one + two)[1..] == one[1..] + two;
      Appended(Next(s, one[0]), one[1..], mid, two, end);
    }
  }

  lemma Then(s: State, mid: State, a: Action) returns (s': State)
    requires Reaches(s, mid) && Enabled(mid, a)
    ensures s' == Next(mid, a) && Reaches(s, s')
  {
    s' := Next(mid, a);
    var one :| Runs(s, one, mid);
    assert [a][1..] == [];
    assert Runs(s', [a][1..], s');
    Appended(s, one, mid, [a], s');
  }

  /** Enqueuer 0 alone can fill the first `n` slots. */
  lemma {:induction false} Filled(s0: State, n: nat) returns (s: State)
    requires Init(s0) && |s0.enqueuers| >= 1 && n <= s0.sz
    ensures Reaches(s0, s) && s.sz == s0.sz && s.workers == s0.workers && s.enqueuers == s0.enqueuers
    ensures s.avail == s.sz - n && s.sem == n && s.enqpos == (if n == s.sz then 0 else n) && s.deqpos == 0 && s.deq == 0
    ensures |s.jobs| == s.sz && forall p :: 0 <= p < n ==> s.jobs[p].Some?
  {
    if n == 0 {
      s := s0;
      assert Runs(s0, [], s0);
    } else {
      s := Filled(s0, n - 1);
      var before := s;
      s := Then(s0, s, Grant(0, n));
      s := Then(s0, s, Take(0));
      s := Then(s0, s, Store(0));
      s := Then(s0, s, Post(0));
      assert s.enqueuers == before.enqueuers;
    }
  }

  /**
   With two workers and two slots an untaken job can be overwritten: the second
   worker hands back a place while the first has not yet emptied the slot the next
   ticket maps to.
   */
  lemma TwoWorkersOverwrite(s0: State)
    requires Init(s0) && |s0.enqueuers| >= 1 && !Serial(s0)
    ensures exists s :: Reaches(s0, s) && !Sound(s)
  {
    var s := Filled(s0, s0.sz);
    s := Then(s0, s, SemWait(0));
    s := Then(s0, s, Claim(0));
    s := Then(s0, s, SemWait(1));
    s := Then(s0, s, Claim(1));
    s := Then(s0, s, Exchange(1));
    s := Then(s0, s, Return(1));
    s := Then(s0, s, Grant(0, 0));
    s := Then(s0, s, Take(0));
    assert s.enqueuers[0].ESlot? && s.enqueuers[0].pos == 0 && s.jobs[0].Some?;
    assert !Sound(s);
  }

  /** Every run is sound exactly when there is at most one worker or at most one slot. */
  lemma SoundIffSerial(s0: State)
    requires Init(s0) && |s0.enqueuers| >= 1
    ensures (forall s :: Reaches(s0, s) ==> Sound(s)) <==> Serial(s0)
  {
    if Serial(s0) {
      forall s | Reaches(s0, s) ensures Sound(s) {
        var schedule :| Runs(s0, schedule, s);
        ExactlyOnce(s0, schedule, s);
      }
    } else {
      TwoWorkersOverwrite(s0);
    }
  }

  // ----- Every job is delivered -----

  /** The jobs that a place was granted for. */
  function JobsOf(schedule: seq<Action>): multiset<Job> {
    if schedule == [] then multiset{}
    else (if schedule[0].Grant? then multiset{schedule[0].job} else multiset{}) + JobsOf(schedule[1..])
  }

  function CarriedBy(pc: EPc): multiset<Job> {
    if pc.EGranted? then multiset{pc.job} else multiset{}
  }

  /** Those that have no ticket yet. */
  function Carried(es: seq<EPc>): multiset<Job> {
    if es == [] then multiset{} else CarriedBy(es[0]) + Carried(es[1..])
  }

  lemma {:induction false} CarriedUpdate(es: seq<EPc>, e: nat, pc: EPc)
    requires e < |es|
    ensures Carried(es[e := pc]) + CarriedBy(es[e]) == Carried(es) + CarriedBy(pc)
  {
    hide CarriedBy;
    var one, es' := CarriedBy(es[0]), es[e := pc];
    if e == 0 {
      assert es'[1..] == es[1..];
    } else {
      assert es'[1..] == es[1..][e - 1 := pc];
      CarriedUpdate(es[1..], e - 1, pc);
      Rearranged(one, CarriedBy(es[e]), Carried(es'[1..]), Carried(es[1..]), CarriedBy(pc));
      Swapped(one, CarriedBy(es[e]), Carried(es'[1..]));
    }
  }

  lemma Swapped(a: multiset<Job>, b: multiset<Job>, c: multiset<Job>)
    ensures (a + b) + c == (a + c) + b
  {}

  /** No job is lost or invented on the way to its ticket, in any build. */
  lemma {:induction false} JobsAccounted(s: State, schedule: seq<Action>, s': State)
    requires Runs(s, schedule, s')
    ensures multiset(s'.tickets) + Carried(s'.enqueuers) ==
            multiset(s.tickets) + Carried(s.enqueuers) + JobsOf(schedule)
    decreases |schedule|
  {
    hide Enabled, Next;
    if schedule != [] {
      JobStep(s, schedule[0]);
      JobsAccounted(Next(s, schedule[0]), schedule[1..], s');
    }
  }

  lemma AddNone(m: multiset<Job>)
    ensures m + multiset{} == m && multiset{} + m == m
  {}

  lemma Rearranged(t: multiset<Job>, gone: multiset<Job>, c': multiset<Job>, c: multiset<Job>, come: multiset<Job>)
    requires c' + gone == c + come
    ensures (t + gone) + c' == t + c + come
  {
    assert (t + gone) + c' == t + (c' + gone);
    assert t + (c + come) == t + c + come;
  }

  lemma JobStep(s: State, a: Action)
    requires Enabled(s, a)
    ensures multiset(Next(s, a).tickets) + Carried(Next(s, a).enqueuers) ==
            multiset(s.tickets) + Carried(s.enqueuers) + (if a.Grant? then multiset{a.job} else multiset{})
  {
    hide Carried;
    var s', t := Next(s, a), multiset(s.tickets);
    if a.Grant? || a.Take? || a.Store? || a.Post? {
      var pc, pc' := s.enqueuers[a.e], s'.enqueuers[a.e];
      CarriedUpdate(s.enqueuers, a.e, pc');
      assert s'.enqueuers == s.enqueuers[a.e := pc'];
      assert multiset(s'.tickets) == t + CarriedBy(pc);
      Rearranged(t, CarriedBy(pc), Carried(s'.enqueuers), Carried(s.enqueuers), CarriedBy(pc'));
    } else {
      AddNone(t + Carried(s.enqueuers));
    }
  }

  /** How many steps it takes to finish what was begun. */
  function WorkE(es: seq<EPc>): nat {
    if es == [] then 0
    else
      WorkE(es[1..]) + match es[0]
        case EIdle => 0
        case EGranted(_) => 7
        case ESlot(_, _, _) => 6
        case EStored => 5
  }

  function WorkW(ws: seq<WPc>): nat {
    if ws == [] then 0
    else
      WorkW(ws[1..]) + match ws[0]
        case WIdle => 0
        case WWoken => 3
        case WSlot(_, _) => 2
        case WTook(_) => 1
  }

  function Work(s: State): nat {
    WorkE(s.enqueuers) + 4 * s.sem + WorkW(s.workers)
  }

  lemma {:induction false} WorkEUpdate(es: seq<EPc>, e: nat, pc: EPc)
    requires e < |es|
    ensures WorkE(es[e := pc]) == WorkE(es) - WorkE([es[e]]) + WorkE([pc])
  {
    if e == 0 {
      assert es[e := pc][1..] == es[1..];
    } else {
      assert es[e := pc][1..] == es[1..][e - 1 := pc];
      WorkEUpdate(es[1..], e - 1, pc);
    }
  }

  lemma {:induction false} WorkWUpdate(ws: seq<WPc>, w: nat, pc: WPc)
    requires w < |ws|
    ensures WorkW(ws[w := pc]) == WorkW(ws) - WorkW([ws[w]]) + WorkW([pc])
  {
    if w == 0 {
      assert ws[w := pc][1..] == ws[1..];
    } else {
      assert ws[w := pc][1..] == ws[1..][w - 1 := pc];
      WorkWUpdate(ws[1..], w - 1, pc);
    }
  }

  /** Each step but a grant is one step less to go. */
  lemma WorkStep(s: State, a: Action)
    requires Enabled(s, a) && !a.Grant?
    ensures Work(Next(s, a)) == Work(s) - 1
  {
    var s' := Next(s, a);
    if a.Take? || a.Store? || a.Post? {
      WorkEUpdate(s.enqueuers, a.e, s'.enqueuers[a.e]);
      assert s'.enqueuers == s.enqueuers[a.e := s'.enqueuers[a.e]];
    } else {
      WorkWUpdate(s.workers, a.w, s'.workers[a.w]);
      assert s'.workers == s.workers[a.w := s'.workers[a.w]];
    }
  }

  predicate AllIdle(s: State) {
    && (forall e :: 0 <= e < |s.enqueuers| ==> s.enqueuers[e].EIdle?)
    && (forall w :: 0 <= w < |s.workers| ==> s.workers[w].WIdle?)
  }

  predicate NoGrants(schedule: seq<Action>) {
    forall i :: 0 <= i < |schedule| ==> !schedule[i].Grant?
  }

  /** Something can always be done, until nothing is left to do. */
  lemma NextStep(s: State) returns (a: Action)
    requires Counted(s) && Slotted(s) && Serial(s) && |s.workers| >= 1 && !(AllIdle(s) && s.sem == 0)
    ensures Enabled(s, a) && !a.Grant?
  {
    hide Counted;
    if e :| 0 <= e < |s.enqueuers| && !s.enqueuers[e].EIdle? {
      assert EnqueuerOk(s, e);
      a := if s.enqueuers[e].EGranted? then Take(e) else if s.enqueuers[e].ESlot? then Store(e) else Post(e);
    } else if w :| 0 <= w < |s.workers| && !s.workers[w].WIdle? {
      if s.workers[w].WSlot? { SlotFull(s, w); }
      a := if s.workers[w].WWoken? then Claim(w) else if s.workers[w].WSlot? then Exchange(w) else Return(w);
    } else {
      a := SemWait(0);
    }
  }

  lemma SlotFull(s: State, w: nat)
    requires Counted(s) && Slotted(s) && w < |s.workers| && s.workers[w].WSlot?
    requires forall e :: 0 <= e < |s.enqueuers| ==> s.enqueuers[e].EIdle?
    ensures Enabled(s, Exchange(w))
  {
    assert WorkerOk(s, w);
    var t := s.workers[w].ticket;
    assert t < |s.tickets|;
    assert TicketOk(s, t);
  }

  /** From everywhere, with no further grants, the queue can be emptied. */
  lemma {:induction false} Drains(s: State) returns (schedule: seq<Action>, s': State)
    requires Counted(s) && Slotted(s) && Serial(s) && |s.workers| >= 1
    ensures Runs(s, schedule, s') && NoGrants(schedule)
    ensures AllIdle(s') && s'.delivered == s'.tickets && s'.avail == s'.sz && s'.sem == 0
    decreases Work(s)
  {
    hide Enabled, Next, Work, Slotted, Counted;
    if AllIdle(s) && s.sem == 0 {
      schedule, s' := [], s;
      NothingLeft(s);
    } else {
      var a := NextStep(s);
      StepKeeps(s, a);
      WorkStep(s, a);
      SameWorkers(s, a);
      var rest, end := Drains(Next(s, a));
      schedule, s' := [a] + rest, end;
      assert schedule[1..] == rest;
    }
  }

  lemma SameWorkers(s: State, a: Action)
    requires Enabled(s, a)
    ensures |Next(s, a).workers| == |s.workers|
  {}

  lemma NothingLeft(s: State)
    requires Counted(s) && Slotted(s) && AllIdle(s) && s.sem == 0
    ensures s.delivered == s.tickets && s.avail == s.sz
  {
    NoneCounted(s.enqueuers, s.workers);
    assert |s.delivered| == |s.tickets|;
  }

  lemma {:induction false} NoJobs(schedule: seq<Action>)
    requires NoGrants(schedule)
    ensures JobsOf(schedule) == multiset{}
  {
    if schedule != [] { NoJobs(schedule[1..]); }
  }

  lemma {:induction false} NoneCarried(es: seq<EPc>)
    requires forall e :: 0 <= e < |es| ==> es[e].EIdle?
    ensures Carried(es) == multiset{}
  {
    if es != [] { NoneCarried(es[1..]); }
  }

  /**
   With one worker (or one slot), every run can go on, without any further grant, to
   where each job that was granted a place has been delivered, as often as it was granted
   one, and all places are free.
   */
  lemma AllDelivered(s: State, schedule: seq<Action>, s': State) returns (more: seq<Action>, end: State)
    requires Init(s) && Serial(s) && |s.workers| >= 1 && Runs(s, schedule, s')
    ensures Runs(s', more, end) && NoGrants(more)
    ensures multiset(end.delivered) == JobsOf(schedule) && end.avail == end.sz
  {
    hide Counted, Slotted, Runs, Enabled, Next, Serial, JobsOf, Carried, NoGrants;
    InitOk(s);
    RunKeeps(s, schedule, s');
    SameCount(s, schedule, s');
    more, end := Drains(s');
    JobsAccounted(s, schedule, s');
    JobsAccounted(s', more, end);
    NoJobs(more);
    NoneCarried(s.enqueuers);
    NoneCarried(end.enqueuers);
    assert multiset(s.tickets) == multiset{};
    AddNone(multiset{});
    AddNone(JobsOf(schedule));
    AddNone(multiset(end.tickets));
    AddNone(multiset(s'.tickets) + Carried(s'.enqueuers));
  }

  lemma {:induction false} SameCount(s: State, schedule: seq<Action>, s': State)
    requires Runs(s, schedule, s')
    ensures |s'.workers| == |s.workers|
    decreases |schedule|
  {
    if schedule != [] { SameCount(Next(s, schedule[0]), schedule[1..], s'); }
  }
}
