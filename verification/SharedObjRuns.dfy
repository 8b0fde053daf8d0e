/**
 What the operations on shared objects do (sharedobj.c), over whole runs with any
 interleaving: which object a reservation returns, what a release leaves, when the
 epoch advances and a scan starts, and what a scan destroys.
 */
module SharedObjRuns {
  import opened Arithmetic
  import opened Common
  import opened SharedObj

  /** The states a schedule passes through. */
  ghost predicate Trace(c: Config, schedule: seq<Event>, states: seq<State>) {
    && |states| == |schedule| + 1
    && forall k :: 0 <= k < |schedule| ==> StepAt(c, schedule, states, k)
  }

  ghost predicate StepAt(c: Config, schedule: seq<Event>, states: seq<State>, k: nat)
    requires k < |schedule| && |states| == |schedule| + 1
  {
    var e := schedule[k];
    Enabled(states[k], e.t, e.a) && states[k + 1] == Next(c, states[k], e.t, e.a)
  }

  /** Every run has them. */
  lemma {:induction false} RunHasTrace(c: Config, s: State, schedule: seq<Event>, s': State)
    returns (states: seq<State>)
    requires Runs(c, s, schedule, s')
    ensures Trace(c, schedule, states) && states[0] == s && states[|schedule|] == s'
    decreases |schedule|
  {
    if schedule == [] {
      states := [s];
    } else {
      var rest := RunHasTrace(c, Next(c, s, schedule[0].t, schedule[0].a), schedule[1..], s');
      states := [s] + rest;
      forall k | 0 <= k < |schedule| ensures StepAt(c, schedule, states, k) {
        if k > 0 { assert StepAt(c, schedule[1..], rest, k - 1); }
      }
    }
  }

  // ----- What a reservation returns -----

  /** What a reference holds: what was last put there, and nothing at first. */
  function Contents(schedule: seq<Event>, r: Ref): Option<ObjId> {
    if schedule == [] then None
    else
      match schedule[|schedule| - 1].a
      case Swap(ref, repl) => if ref == r then repl else Contents(schedule[..|schedule| - 1], r)
      case _ => Contents(schedule[..|schedule| - 1], r)
  }

  predicate Swaps(e: Event, r: Ref) {
    e.a.Swap? && e.a.ref == r
  }

  /** Of other threads and of the references, a thread's own steps change nothing. */
  ghost predicate Framed(s: State, s': State, t: nat) {
    s'.refs == s.refs && |s'.threads| == |s.threads|
    && forall u :: 0 <= u < |s.threads| && u != t ==> s'.threads[u] == s.threads[u]
  }

  ghost predicate SameCounts(s: State, s': State, t: nat)
    requires t < |s.threads|
  {
    && s'.epoch == s.epoch && t < |s'.threads| && s'.threads[t].ncreated == s.threads[t].ncreated
    && (s.threads[t].pc.RetireStore? || s'.threads[t].nretired == s.threads[t].nretired)
  }

  lemma ScanFrame(s: State, t: nat)
    requires t < |s.threads| && s.threads[t].pc.Scan? && Fits(s, t)
    ensures Framed(s, DoScan(s, t), t) && SameCounts(s, DoScan(s, t), t)
  {
    hide Conflicts;
  }

  lemma RetireFrame(c: Config, s: State, t: nat)
    requires t < |s.threads| && s.threads[t].pc.RetireStore? && Fits(s, t)
    ensures Framed(s, DoRetireStore(c, s, t), t) && SameCounts(s, DoRetireStore(c, s, t), t)
  {}

  lemma AdvanceFrame(c: Config, s: State, t: nat)
    requires Enabled(s, t, Advance)
    ensures Framed(s, DoAdvance(c, s, t), t) && SameCounts(s, DoAdvance(c, s, t), t)
  {
    hide DoScan, DoRetireStore, Fits, Framed, SameCounts;
    if s.threads[t].pc.Scan? {
      ScanFrame(s, t);
    } else if s.threads[t].pc.RetireStore? {
      RetireFrame(c, s, t);
    } else {
      PlainFrame(c, s, t);
    }
  }

  lemma ThreadFrame(s: State, t: nat, th: Thread)
    requires t < |s.threads| && th.ncreated == s.threads[t].ncreated && th.nretired == s.threads[t].nretired
    ensures Framed(s, WithThread(s, t, th), t) && SameCounts(s, WithThread(s, t, th), t)
  {}

  lemma PcFrame(s: State, t: nat, pc: Pc)
    requires t < |s.threads|
    ensures Framed(s, WithPc(s, t, pc), t) && SameCounts(s, WithPc(s, t, pc), t)
  {}

  lemma SlotFrame(s: State, s': State, t: nat, res: seq<nat>)
    requires t < |s.threads| && Framed(s, s', t) && SameCounts(s, s', t)
    ensures Framed(s, s'.(res := res), t) && SameCounts(s, s'.(res := res), t)
  {}

  lemma PlainFrame(c: Config, s: State, t: nat)
    requires Enabled(s, t, Advance) && !s.threads[t].pc.Scan? && !s.threads[t].pc.RetireStore?
    ensures Framed(s, DoAdvance(c, s, t), t) && SameCounts(s, DoAdvance(c, s, t), t)
  {
    hide Framed, SameCounts, WithThread, WithPc;
    var th := s.threads[t];
    match th.pc
    case RetireLoad(o) => PcFrame(s, t, RetireStore(o, s.epoch));
    case ScanStart => PcFrame(s, t, Scan(|s.threads|, 0, 0));
    case ReserveEpoch(r) => PcFrame(s, t, ReserveStore(r, s.epoch));
    case ReserveStore(r, at) =>
      ThreadFrame(s, t, th.(pc := ReserveLoad(r, at), held := None));
      SlotFrame(s, WithThread(s, t, th.(pc := ReserveLoad(r, at), held := None)), t, s.res[t := Word(at)]);
    case ReserveLoad(r, at) => PcFrame(s, t, ReserveCheck(r, at, s.refs[r]));
    case ReserveCheck(r, at, p) =>
      ThreadFrame(s, t, th.(pc := Idle, held := if p.Some? then Some(Hold(p.value, at)) else None));
      PcFrame(s, t, ReserveEpoch(r));
    case ReleaseEpoch => PcFrame(s, t, ReleaseStore(s.epoch));
    case ReleaseStore(at) =>
      ThreadFrame(s, t, th.(pc := Idle, held := None));
      SlotFrame(s, WithThread(s, t, th.(pc := Idle, held := None)), t, s.res[t := Word(Word(at) - 1)]);
    case _ =>
  }

  lemma CreateFrame(c: Config, s: State, t: nat, o: ObjId)
    requires Enabled(s, t, Create(o))
    ensures Framed(s, DoCreate(c, s, t, o), t)
  {}

  lemma SwapFrame(s: State, t: nat, r: Ref, repl: Option<ObjId>)
    requires Enabled(s, t, Swap(r, repl))
    ensures Framed(s, DoSwap(s, t, r, repl).(refs := s.refs), t)
    ensures r in s.refs && DoSwap(s, t, r, repl).refs == s.refs[r := repl]
  {}

  /** One step, seen from the references and from the threads that do not take it. */
  lemma StepFrame(c: Config, s: State, e: Event)
    requires Enabled(s, e.t, e.a)
    ensures var s' := Next(c, s, e.t, e.a);
            && s'.refs == (if e.a.Swap? then s.refs[e.a.ref := e.a.repl] else s.refs)
            && (e.a.Swap? ==> e.a.ref in s.refs) && |s'.threads| >= |s.threads|
            && forall u :: 0 <= u < |s.threads| && (u != e.t || e.a.Register?) ==> s'.threads[u] == s.threads[u]
  {
    hide DoAdvance, DoCreate, DoSwap;
    match e.a
    case Create(o) => CreateFrame(c, s, e.t, o);
    case Swap(r, repl) => SwapFrame(s, e.t, r, repl);
    case Advance => AdvanceFrame(c, s, e.t);
    case _ =>
  }

  lemma {:induction false} RefsAre(c: Config, schedule: seq<Event>, states: seq<State>, k: nat, r: Ref)
    requires Trace(c, schedule, states) && Init(states[0]) && k <= |schedule|
    ensures states[k].refs.Keys == states[0].refs.Keys
    ensures r in states[0].refs ==> states[k].refs[r] == Contents(schedule[..k], r)
  {
    hide Next, Enabled, Init;
    if k > 0 {
      RefsAre(c, schedule, states, k - 1, r);
      assert StepAt(c, schedule, states, k - 1);
      StepFrame(c, states[k - 1], schedule[k - 1]);
      assert schedule[..k][..k - 1] == schedule[..k - 1] && schedule[..k][k - 1] == schedule[k - 1];
    } else {
      NothingPublished(states[0], r);
      assert schedule[..0] == [];
    }
  }

  lemma NothingPublished(s: State, r: Ref)
    requires Init(s)
    ensures r in s.refs ==> s.refs[r] == None
  {}

  lemma {:induction false} NotSwapped(schedule: seq<Event>, i: nat, k: nat, r: Ref)
    requires i <= k <= |schedule| && forall m :: i <= m < k ==> !Swaps(schedule[m], r)
    ensures Contents(schedule[..k], r) == Contents(schedule[..i], r)
  {
    if i < k {
      NotSwapped(schedule, i, k - 1, r);
      assert schedule[..k][..k - 1] == schedule[..k - 1];
    }
  }

  /** Thread `t` is in the middle of something. */
  predicate At(s: State, t: nat) {
    t < |s.threads| && !s.threads[t].pc.Idle?
  }

  /** The object a thread has reserved. */
  function Given(s: State, t: nat): Option<ObjId>
    requires t < |s.threads|
  {
    if s.threads[t].held.Some? then Some(s.threads[t].held.value.obj) else None
  }

  /** Thread `t` is reserving from `r`; what it has loaded, `r` held at some time since step `i`. */
  ghost predicate Reserving(schedule: seq<Event>, s: State, t: nat, r: Ref, i: nat, k: nat) {
    && t < |s.threads| && r in s.refs && i < k <= |schedule|
    && match s.threads[t].pc
       case ReserveEpoch(r') => r' == r
       case ReserveStore(r', _) => r' == r
       case ReserveLoad(r', _) => r' == r
       case ReserveCheck(r', _, p) => r' == r && HeldSince(schedule, r, i, k, p)
       case _ => false
  }

  /** At some time after step `i` and not after step `k`. */
  ghost predicate HeldSince(schedule: seq<Event>, r: Ref, i: nat, k: nat, p: Option<ObjId>) {
    exists m :: i < m <= k <= |schedule| && Contents(schedule[..m], r) == p
  }

  /** One step, seen from a thread that is reserving from `r`. */
  lemma ReserveStep(c: Config, s: State, e: Event, t: nat)
    requires Enabled(s, e.t, e.a) && t < |s.threads|
    requires var pc := s.threads[t].pc; pc.ReserveEpoch? || pc.ReserveStore? || pc.ReserveLoad? || pc.ReserveCheck?
    ensures var s' := Next(c, s, e.t, e.a);
            && t < |s'.threads|
            && var pc, pc' := s.threads[t].pc, s'.threads[t].pc;
            || pc' == pc
            || (pc.ReserveEpoch? && pc'.ReserveStore? && pc'.ref == pc.ref)
            || (pc.ReserveStore? && pc'.ReserveLoad? && pc'.ref == pc.ref)
            || (pc.ReserveLoad? && pc.ref in s.refs && pc' == ReserveCheck(pc.ref, pc.at, s.refs[pc.ref]))
            || (pc.ReserveCheck? && (pc' == ReserveEpoch(pc.ref) || (pc' == Idle && Given(s', t) == pc.p)))
  {
    StepFrame(c, s, e);
    if e.t == t && !e.a.Register? { OwnReserveStep(c, s, t); }
  }

  lemma OwnReserveStep(c: Config, s: State, t: nat)
    requires Enabled(s, t, Advance)
    requires var pc := s.threads[t].pc; pc.ReserveEpoch? || pc.ReserveStore? || pc.ReserveLoad? || pc.ReserveCheck?
    ensures var s' := DoAdvance(c, s, t);
            && |s'.threads| == |s.threads|
            && var pc, pc' := s.threads[t].pc, s'.threads[t].pc;
            match pc
            case ReserveEpoch(r) => pc' == ReserveStore(r, s.epoch)
            case ReserveStore(r, at) => pc' == ReserveLoad(r, at)
            case ReserveLoad(r, at) => r in s.refs && pc' == ReserveCheck(r, at, s.refs[r])
            case ReserveCheck(r, _, p) => pc' == ReserveEpoch(r) || (pc' == Idle && Given(s', t) == p)
            case _ => true
  {}

  lemma ReserveStarts(c: Config, s: State, e: Event, r: Ref)
    requires Enabled(s, e.t, e.a) && e.a == Reserve(r)
    ensures var s' := Next(c, s, e.t, e.a);
            r in s.refs && e.t < |s'.threads| && s'.threads[e.t].pc == ReserveEpoch(r)
  {}

  lemma {:induction false} ReservingKept(c: Config, schedule: seq<Event>, states: seq<State>, i: nat, k: nat, t: nat,
                                         r: Ref)
    requires Trace(c, schedule, states) && Init(states[0]) && i < k <= |schedule|
    requires schedule[i] == Event(t, Reserve(r))
    requires forall m :: i < m <= k ==> At(states[m], t)
    ensures Reserving(schedule, states[k], t, r, i, k)
  {
    hide Contents, Next, Enabled, Init, HeldSince;
    assert StepAt(c, schedule, states, k - 1);
    RefsAre(c, schedule, states, k, r);
    RefsAre(c, schedule, states, k - 1, r);
    if k == i + 1 {
      ReserveStarts(c, states[i], schedule[i], r);
    } else {
      ReservingKept(c, schedule, states, i, k - 1, t, r);
      ReserveStep(c, states[k - 1], schedule[k - 1], t);
      StillHeld(schedule, r, i, k - 1, states[k - 1].threads[t].pc, states[k - 1].refs[r]);
    }
  }

  lemma StillHeld(schedule: seq<Event>, r: Ref, i: nat, k: nat, pc: Pc, now: Option<ObjId>)
    requires i < k < |schedule| && now == Contents(schedule[..k], r)
    ensures HeldSince(schedule, r, i, k + 1, now)
    ensures pc.ReserveCheck? && HeldSince(schedule, r, i, k, pc.p) ==> HeldSince(schedule, r, i, k + 1, pc.p)
  {
    hide Contents;
    if pc.ReserveCheck? && HeldSince(schedule, r, i, k, pc.p) {
      var m :| i < m <= k && Contents(schedule[..m], r) == pc.p;
      assert i < m <= k + 1;
    }
  }

  /**
   A reservation from `r`, begun by step `i` and completed by step `j`, gives what `r`
   held at some time in between; and if nobody swapped `r` meanwhile, just what it held.
   */
  lemma ReserveReads(c: Config, schedule: seq<Event>, states: seq<State>, i: nat, j: nat, t: nat, r: Ref)
    requires Trace(c, schedule, states) && Init(states[0]) && i < j < |schedule|
    requires schedule[i] == Event(t, Reserve(r))
    requires (forall m :: i < m <= j ==> At(states[m], t)) && t < |states[j + 1].threads| && !At(states[j + 1], t)
    ensures exists m :: i < m <= j && Given(states[j + 1], t) == Contents(schedule[..m], r)
    ensures (forall m :: i <= m < j ==> !Swaps(schedule[m], r)) ==>
              Given(states[j + 1], t) == Contents(schedule[..i], r)
  {
    hide Contents, Next, Enabled, Init, Given;
    ReservingKept(c, schedule, states, i, j, t, r);
    assert At(states[j], t) && StepAt(c, schedule, states, j);
    ReserveStep(c, states[j], schedule[j], t);
    var m :| i < m <= j && Given(states[j + 1], t) == Contents(schedule[..m], r);
    if forall n :: i <= n < j ==> !Swaps(schedule[n], r) { NotSwapped(schedule, i, m, r); }
  }

  // ----- What a release leaves -----

  lemma OwnReleaseStep(c: Config, s: State, t: nat)
    requires Enabled(s, t, Advance) && (s.threads[t].pc.ReleaseEpoch? || s.threads[t].pc.ReleaseStore?)
    ensures var s' := DoAdvance(c, s, t);
            && |s'.threads| == |s.threads| && |s'.res| == |s.res|
            && var pc, pc' := s.threads[t].pc, s'.threads[t].pc;
            if pc.ReleaseEpoch? then pc' == ReleaseStore(s.epoch)
            else pc' == Idle && s'.threads[t].held.None? && t < |s'.res| && s'.res[t] == Word(pc.at - 1)
  {
    var pc := s.threads[t].pc;
    if pc.ReleaseStore? { WordLess(pc.at); }
  }

  lemma WordLess(n: nat)
    ensures Word(Word(n) - 1) == Word(n - 1)
  {
    var q := n / WORD;
    assert n - 1 == q * WORD + (Word(n) - 1);
    WordOf(q, Word(n) - 1);
    WordOf(0, Word(n) - 1);
  }

  ghost predicate Releasing(states: seq<State>, t: nat, i: nat, k: nat)
    requires i < k < |states|
  {
    && t < |states[k].threads|
    && match states[k].threads[t].pc
       case ReleaseEpoch => true
       case ReleaseStore(at) => EpochSince(states, i, k, at)
       case _ => false
  }

  ghost predicate EpochSince(states: seq<State>, i: nat, k: nat, at: nat) {
    exists m :: i < m <= k < |states| && states[m].epoch == at
  }

  lemma {:induction false} ReleasingKept(c: Config, schedule: seq<Event>, states: seq<State>, i: nat, k: nat, t: nat)
    requires Trace(c, schedule, states) && i < k <= |schedule| && schedule[i] == Event(t, Release)
    requires forall m :: i < m <= k ==> At(states[m], t)
    ensures Releasing(states, t, i, k)
  {
    hide Next, Enabled, EpochSince;
    assert StepAt(c, schedule, states, k - 1);
    if k == i + 1 {
      ReleaseStarts(c, states[i], schedule[i]);
    } else {
      ReleasingKept(c, schedule, states, i, k - 1, t);
      ReleaseStep(c, states[k - 1], schedule[k - 1], t);
      StillEpoch(states, i, k, states[k - 1].threads[t].pc);
    }
  }

  lemma StillEpoch(states: seq<State>, i: nat, k: nat, pc: Pc)
    requires i + 1 < k < |states|
    ensures EpochSince(states, i, k, states[k - 1].epoch)
    ensures pc.ReleaseStore? && EpochSince(states, i, k - 1, pc.at) ==> EpochSince(states, i, k, pc.at)
  {}

  lemma ReleaseStarts(c: Config, s: State, e: Event)
    requires Enabled(s, e.t, e.a) && e.a == Release
    ensures var s' := Next(c, s, e.t, e.a); e.t < |s'.threads| && s'.threads[e.t].pc == ReleaseEpoch
  {}

  lemma ReleaseStep(c: Config, s: State, e: Event, t: nat)
    requires Enabled(s, e.t, e.a) && t < |s.threads| && (s.threads[t].pc.ReleaseEpoch? || s.threads[t].pc.ReleaseStore?)
    ensures var s' := Next(c, s, e.t, e.a);
            && t < |s'.threads|
            && var pc, pc' := s.threads[t].pc, s'.threads[t].pc;
            || pc' == pc
            || (pc.ReleaseEpoch? && pc' == ReleaseStore(s.epoch))
            || (pc.ReleaseStore? && pc' == Idle && s'.threads[t].held.None?
                && t < |s'.res| && s'.res[t] == Word(pc.at - 1))
  {
    StepFrame(c, s, e);
    if e.t == t && !e.a.Register? { OwnReleaseStep(c, s, t); }
  }

  /** A completed release holds nothing, and its slot is one behind the epoch at some time in between. */
  lemma ReleaseLeaves(c: Config, schedule: seq<Event>, states: seq<State>, i: nat, j: nat, t: nat)
    requires Trace(c, schedule, states) && i < j < |schedule| && schedule[i] == Event(t, Release)
    requires (forall m :: i < m <= j ==> At(states[m], t)) && t < |states[j + 1].threads| && !At(states[j + 1], t)
    ensures states[j + 1].threads[t].held.None? && t < |states[j + 1].res|
    ensures exists m :: i < m <= j && states[j + 1].res[t] == Word(states[m].epoch - 1)
  {
    hide Next, Enabled, Word;
    ReleasingKept(c, schedule, states, i, j, t);
    assert At(states[j], t) && StepAt(c, schedule, states, j);
    ReleaseStep(c, states[j], schedule[j], t);
    var at := states[j].threads[t].pc.at;
    var m :| i < m <= j && states[m].epoch == at;
    assert states[j + 1].res[t] == Word(states[m].epoch - 1);
  }

  /** Such a slot lets every object go that is created later, for the next 2^32 epochs. */
  lemma ReleasedSlotPasses(born: nat, died: nat, e: nat)
    requires e <= born <= died < e - 1 + WORD
    ensures !Conflicts(Word(born), Word(died), Word(e - 1))
  {
    var lap := e - 1 + WORD;
    WordOf(0, died - born);
    WordOf(0, lap - born);
    assert Word(e - 1) == Word(lap);
    ConflictIsCyclicInterval(born, died, lap);
  }

  // ----- What a scan destroys -----

  /** Some slot holds an epoch in the life of the object. */
  predicate Reserved(s: State, nt: nat, o: ObjId)
    requires o in s.objs && nt <= |s.res|
  {
    exists slot :: 0 <= slot < nt && Conflicts(s.objs[o].created, s.objs[o].retired, s.res[slot])
  }

  ghost predicate Known(s: State, list: seq<ObjId>) {
    forall i :: 0 <= i < |list| ==> list[i] in s.objs
  }

  /** Those of a list that are reserved, in their order; or the others. */
  ghost function Sorted(s: State, nt: nat, list: seq<ObjId>, reserved: bool): seq<ObjId>
    requires nt <= |s.res| && Known(s, list)
  {
    if list == [] then []
    else
      (if Reserved(s, nt, list[0]) == reserved then [list[0]] else []) + Sorted(s, nt, list[1..], reserved)
  }

  function Steps(t: nat, n: nat): seq<Event> {
    seq(n, _ => Event(t, Advance))
  }

  lemma OneMoreStep(c: Config, s: State, t: nat, n: nat, s': State)
    requires Enabled(s, t, Advance) && Runs(c, DoAdvance(c, s, t), Steps(t, n), s')
    ensures Runs(c, s, Steps(t, n + 1), s')
  {
    hide Enabled, DoAdvance;
    assert Steps(t, n + 1)[1..] == Steps(t, n) && Steps(t, n + 1)[0] == Event(t, Advance);
  }

  /** The object at hand is in no slot so far. */
  ghost predicate Scanning(s: State, t: nat) {
    && t < |s.threads| && t < |s.res| && s.threads[t].pc.Scan? && Known(s, s.threads[t].retired)
    && var th := s.threads[t];
    && th.pc.i <= |th.retired| && th.pc.slot <= th.pc.nt <= |s.res|
    && (th.pc.i < |th.retired| ==>
          forall k :: 0 <= k < th.pc.slot ==>
            !Conflicts(s.objs[th.retired[th.pc.i]].created, s.objs[th.retired[th.pc.i]].retired, s.res[k]))
  }

  /** The rest of the scan has taken off the list and destroyed exactly what no slot reserves. */
  ghost predicate ScanEnds(s: State, t: nat, s': State)
    requires Scanning(s, t)
  {
    && t < |s'.threads| && s'.threads[t].pc.Idle?
    && var th := s.threads[t];
    var done, rest := th.retired[..th.pc.i], th.retired[th.pc.i..];
    && s'.threads[t].retired == done + Sorted(s, th.pc.nt, rest, true)
    && s'.destroyed == s.destroyed + Sorted(s, th.pc.nt, rest, false)
  }

  lemma ScanTurn(c: Config, s: State, t: nat)
    requires Scanning(s, t) && s.threads[t].pc.i < |s.threads[t].retired|
    ensures Enabled(s, t, Advance) && Scanning(DoAdvance(c, s, t), t)
    ensures var next, th := DoAdvance(c, s, t), s.threads[t];
            var o, pc := th.retired[th.pc.i], next.threads[t].pc;
            && next.objs == s.objs && next.res == s.res && pc.nt == th.pc.nt
            && if th.pc.slot == th.pc.nt then
                 && pc.i == th.pc.i && next.destroyed == s.destroyed + [o]
                 && next.threads[t].retired == th.retired[..th.pc.i] + th.retired[th.pc.i + 1..]
               else
                 && next.threads[t].retired == th.retired && next.destroyed == s.destroyed
                 && pc.i == if Conflicts(s.objs[o].created, s.objs[o].retired, s.res[th.pc.slot]) then th.pc.i + 1
                            else th.pc.i
  {
    hide Conflicts;
  }

  lemma TurnEnds(c: Config, s: State, t: nat, s': State)
    requires Scanning(s, t) && s.threads[t].pc.i < |s.threads[t].retired|
    requires Enabled(s, t, Advance) && Scanning(DoAdvance(c, s, t), t) && ScanEnds(DoAdvance(c, s, t), t, s')
    ensures ScanEnds(s, t, s')
  {
    hide Conflicts, DoAdvance, Enabled;
    var next, th := DoAdvance(c, s, t), s.threads[t];
    ScanTurn(c, s, t);
    var rest := next.threads[t].retired[next.threads[t].pc.i..];
    SortedSame(s, next, th.pc.nt, rest, true);
    SortedSame(s, next, th.pc.nt, rest, false);
    SortsOne(s, th.pc.nt, th.retired, th.pc.i);
    if th.pc.slot == th.pc.nt {
      assert rest == th.retired[th.pc.i + 1..] && next.threads[t].retired[..th.pc.i] == th.retired[..th.pc.i];
    }
  }

  /**
   A scan that nobody interrupts takes off the list and destroys exactly what no slot
   reserves, and keeps the rest in its order.
   */
  lemma {:induction false} ScanDoes(c: Config, s: State, t: nat) returns (n: nat, s': State)
    requires Scanning(s, t)
    ensures Runs(c, s, Steps(t, n), s') && ScanEnds(s, t, s')
    decreases |s.threads[t].retired| - s.threads[t].pc.i, s.threads[t].pc.nt - s.threads[t].pc.slot
  {
    var th := s.threads[t];
    if th.pc.i == |th.retired| {
      n, s' := 1, DoAdvance(c, s, t);
      NoMoreSteps(c, s', t);
      OneMoreStep(c, s, t, 0, s');
      assert th.retired[th.pc.i..] == [] && th.retired[..th.pc.i] + [] == th.retired;
    } else {
      n, s' := ScanGoesOn(c, s, t);
    }
  }

  lemma {:induction false} ScanGoesOn(c: Config, s: State, t: nat) returns (n: nat, s': State)
    requires Scanning(s, t) && s.threads[t].pc.i < |s.threads[t].retired|
    ensures Runs(c, s, Steps(t, n), s') && ScanEnds(s, t, s')
    decreases |s.threads[t].retired| - s.threads[t].pc.i, s.threads[t].pc.nt - s.threads[t].pc.slot, 0
  {
    hide Conflicts, Runs, DoAdvance, Enabled, ScanEnds;
    ScanTurn(c, s, t);
    ScanNearer(c, s, t);
    var m;
    m, s' := ScanDoes(c, DoAdvance(c, s, t), t);
    n := m + 1;
    OneMoreStep(c, s, t, m, s');
    TurnEnds(c, s, t, s');
  }

  lemma ScanNearer(c: Config, s: State, t: nat)
    requires Scanning(s, t) && s.threads[t].pc.i < |s.threads[t].retired|
    requires Enabled(s, t, Advance) && Scanning(DoAdvance(c, s, t), t)
    ensures var th, th' := s.threads[t], DoAdvance(c, s, t).threads[t];
            || |th'.retired| - th'.pc.i < |th.retired| - th.pc.i
            || (|th'.retired| - th'.pc.i == |th.retired| - th.pc.i && th'.pc.nt - th'.pc.slot < th.pc.nt - th.pc.slot)
  {
    hide Conflicts, Fits;
    ScanTurn(c, s, t);
  }

  lemma {:induction false} SortedSame(s: State, s': State, nt: nat, list: seq<ObjId>, reserved: bool)
    requires s'.objs == s.objs && s'.res == s.res && nt <= |s.res| && Known(s, list)
    ensures Sorted(s', nt, list, reserved) == Sorted(s, nt, list, reserved)
  {
    hide Conflicts;
    if list != [] { SortedSame(s, s', nt, list[1..], reserved); }
  }

  lemma SortsOne(s: State, nt: nat, list: seq<ObjId>, i: nat)
    requires i < |list| && nt <= |s.res| && Known(s, list)
    ensures Known(s, list[i..]) && Known(s, list[i + 1..])
    ensures var more, gone := Sorted(s, nt, list[i + 1..], true), Sorted(s, nt, list[i + 1..], false);
            if Reserved(s, nt, list[i]) then
              && list[..i] + Sorted(s, nt, list[i..], true) == list[..i + 1] + more
              && Sorted(s, nt, list[i..], false) == gone
            else
              && Sorted(s, nt, list[i..], true) == more
              && forall d: seq<ObjId> :: d + Sorted(s, nt, list[i..], false) == (d + [list[i]]) + gone
  {
    hide Reserved;
    var more, gone := Sorted(s, nt, list[i + 1..], true), Sorted(s, nt, list[i + 1..], false);
    assert list[i..][0] == list[i] && list[i..][1..] == list[i + 1..];
    if Reserved(s, nt, list[i]) {
      assert list[..i + 1] == list[..i] + [list[i]];
      Regroup(list[..i], [list[i]], more);
    } else {
      forall d: seq<ObjId> ensures d + ([list[i]] + gone) == (d + [list[i]]) + gone { Regroup(d, [list[i]], gone); }
    }
  }

  lemma NoMoreSteps(c: Config, s: State, t: nat)
    ensures Runs(c, s, Steps(t, 0), s)
  {}

  // ----- When the epoch advances, and when a scan starts -----

  /** How many objects a thread created. */
  function Creates(schedule: seq<Event>, t: nat): nat {
    if schedule == [] then 0
    else
      var e := schedule[|schedule| - 1];
      Creates(schedule[..|schedule| - 1], t) + if e.a.Create? && e.t == t then 1 else 0
  }

  /** What the first `n` threads add to the epoch: one for every `every`-th object of each. */
  function Epochs(schedule: seq<Event>, every: nat, n: nat): nat
    requires every > 0
  {
    if n == 0 then 0 else Epochs(schedule, every, n - 1) + Creates(schedule, n - 1) / every
  }

  lemma CountStep(c: Config, s: State, e: Event)
    requires Enabled(s, e.t, e.a)
    ensures var s' := Next(c, s, e.t, e.a);
            && (e.a.Create? ==> e.t < |s.threads|)
            && |s'.threads| == |s.threads| + (if e.a.Register? then 1 else 0)
            && (e.a.Register? ==> s'.threads[|s.threads|].ncreated == 0)
            && s'.epoch == s.epoch + (if e.a.Create? && Word(s.threads[e.t].ncreated + 1) == c.intEpoch then 1 else 0)
            && forall t :: 0 <= t < |s.threads| ==>
                 s'.threads[t].ncreated ==
                 if e.a.Create? && e.t == t then
                   (if Word(s.threads[t].ncreated + 1) == c.intEpoch then 0 else Word(s.threads[t].ncreated + 1))
                 else s.threads[t].ncreated
  {
    hide DoAdvance;
    StepFrame(c, s, e);
    if e.a.Advance? { AdvanceFrame(c, s, e.t); }
  }

  ghost predicate Counted(c: Config, schedule: seq<Event>, s: State)
    requires c.intEpoch > 0
  {
    && s.epoch == Epochs(schedule, c.intEpoch, |s.threads|)
    && (forall t :: 0 <= t < |s.threads| ==> s.threads[t].ncreated == Creates(schedule, t) % c.intEpoch)
    && (forall t: nat :: t >= |s.threads| ==> Creates(schedule, t) == 0)
  }

  lemma OneMore(n: nat, every: nat)
    requires every > 0
    ensures if n % every + 1 == every then (n + 1) % every == 0 && (n + 1) / every == n / every + 1
            else (n + 1) % every == n % every + 1 && (n + 1) / every == n / every
  {
    if n % every + 1 == every {
      Distribute(1, n / every, 1, every);
      Quotient(n + 1, every, n / every + 1, 0);
    } else {
      Quotient(n + 1, every, n / every, n % every + 1);
    }
  }

  lemma {:induction false} EpochsMore(schedule: seq<Event>, e: Event, every: nat, n: nat)
    requires every > 0
    ensures Epochs(schedule + [e], every, n) ==
            Epochs(schedule, every, n)
            + if e.a.Create? && e.t < n && Creates(schedule, e.t) % every + 1 == every then 1 else 0
  {
    assert (schedule + [e])[..|schedule|] == schedule;
    if n > 0 {
      EpochsMore(schedule, e, every, n - 1);
      OneMore(Creates(schedule, n - 1), every);
    }
  }

  lemma CountedStep(c: Config, schedule: seq<Event>, s: State, e: Event)
    requires 0 < c.intEpoch < WORD && Counted(c, schedule, s) && Enabled(s, e.t, e.a)
    ensures Counted(c, schedule + [e], Next(c, s, e.t, e.a))
  {
    hide Next, Enabled, Epochs, Creates, Word;
    CountStep(c, s, e);
    EpochsMore(schedule, e, c.intEpoch, |s.threads|);
    forall t: nat
      ensures Creates(schedule + [e], t) == Creates(schedule, t) + if e.a.Create? && e.t == t then 1 else 0
    {
      CreatesMore(schedule, e, t);
    }
    var s', all := Next(c, s, e.t, e.a), schedule + [e];
    if e.a.Create? {
      OneMore(Creates(schedule, e.t), c.intEpoch);
      OwnWord(s.threads[e.t].ncreated + 1);
    }
    if e.a.Register? { NoEpochs(all, c.intEpoch, |s.threads|); }
  }

  lemma CreatesMore(schedule: seq<Event>, e: Event, t: nat)
    ensures Creates(schedule + [e], t) == Creates(schedule, t) + if e.a.Create? && e.t == t then 1 else 0
  {
    assert (schedule + [e])[..|schedule|] == schedule;
  }

  lemma NoEpochs(schedule: seq<Event>, every: nat, n: nat)
    requires every > 0 && Creates(schedule, n) == 0
    ensures Epochs(schedule, every, n + 1) == Epochs(schedule, every, n) && 0 % every == 0
  {}

  lemma OwnWord(n: nat)
    requires n < WORD
    ensures Word(n) == n
  {}

  /** The epoch is the number of rounds of `intEpoch` creations that the threads have completed, each for itself. */
  lemma {:induction false} EpochCounts(c: Config, schedule: seq<Event>, states: seq<State>, k: nat)
    requires Trace(c, schedule, states) && Init(states[0]) && k <= |schedule| && 0 < c.intEpoch < WORD
    ensures Counted(c, schedule[..k], states[k])
  {
    hide Next, Enabled, Counted;
    if k == 0 {
      NoneCounted(c, states[0]);
      assert schedule[..0] == [];
    } else {
      EpochCounts(c, schedule, states, k - 1);
      assert StepAt(c, schedule, states, k - 1);
      CountedStep(c, schedule[..k - 1], states[k - 1], schedule[k - 1]);
      assert schedule[..k] == schedule[..k - 1] + [schedule[k - 1]];
    }
  }

  lemma NoneCounted(c: Config, s: State)
    requires Init(s) && c.intEpoch > 0
    ensures Counted(c, [], s)
  {}

  /** How many objects a thread has put on its list up to step `k`. */
  function Retires(schedule: seq<Event>, states: seq<State>, t: nat, k: nat): nat
    requires k <= |schedule| < |states|
  {
    if k == 0 then 0
    else
      var one := PutsOnList(states[k - 1], schedule[k - 1]) && schedule[k - 1].t == t;
      Retires(schedule, states, t, k - 1) + if one then 1 else 0
  }

  predicate PutsOnList(s: State, e: Event) {
    e.a.Advance? && e.t < |s.threads| && s.threads[e.t].pc.RetireStore?
  }

  lemma RetireCountStep(c: Config, s: State, e: Event)
    requires Enabled(s, e.t, e.a) && c.intDestroy > 0
    ensures var s' := Next(c, s, e.t, e.a);
            && |s'.threads| >= |s.threads|
            && (forall t :: |s.threads| <= t < |s'.threads| ==> s'.threads[t].nretired == 0)
            && (PutsOnList(s, e) ==>
                  (s'.threads[e.t].pc.ScanStart? <==> Word(s.threads[e.t].nretired + 1) == c.intDestroy))
            && forall t :: 0 <= t < |s.threads| ==>
                 s'.threads[t].nretired ==
                 if PutsOnList(s, e) && e.t == t then
                   (if Word(s.threads[t].nretired + 1) == c.intDestroy then 0 else Word(s.threads[t].nretired + 1))
                 else s.threads[t].nretired
  {
    hide DoAdvance;
    StepFrame(c, s, e);
    if e.a.Advance? {
      AdvanceFrame(c, s, e.t);
      if PutsOnList(s, e) { OwnRetireStep(c, s, e.t); }
    }
  }

  lemma OwnRetireStep(c: Config, s: State, t: nat)
    requires t < |s.threads| && s.threads[t].pc.RetireStore? && Enabled(s, t, Advance)
    ensures var th, th' := s.threads[t], DoAdvance(c, s, t).threads[t];
            && (th'.pc.ScanStart? <==> Word(th.nretired + 1) == c.intDestroy)
            && th'.nretired == (if th'.pc.ScanStart? then 0 else Word(th.nretired + 1))
            && th'.retired == [th.pc.o] + th.retired
  {}

  lemma StepOf(c: Config, schedule: seq<Event>, states: seq<State>, k: nat)
    requires Trace(c, schedule, states) && k < |schedule|
    ensures Enabled(states[k], schedule[k].t, schedule[k].a)
    ensures states[k + 1] == Next(c, states[k], schedule[k].t, schedule[k].a)
  {
    assert StepAt(c, schedule, states, k);
  }

  lemma NobodyYet(c: Config, schedule: seq<Event>, states: seq<State>)
    requires Trace(c, schedule, states) && Init(states[0])
    ensures states[0].threads == []
  {}

  lemma RetiresOnce(schedule: seq<Event>, states: seq<State>, t: nat, k: nat)
    requires k <= |schedule| < |states|
    ensures k == 0 ==> Retires(schedule, states, t, k) == 0
    ensures k > 0 ==>
              var one := PutsOnList(states[k - 1], schedule[k - 1]) && schedule[k - 1].t == t;
              Retires(schedule, states, t, k) == Retires(schedule, states, t, k - 1) + if one then 1 else 0
  {}

  function Rem(n: nat, every: nat): nat
    requires every > 0
  {
    n % every
  }

  lemma {:induction false} RetiredSoFar(c: Config, schedule: seq<Event>, states: seq<State>, k: nat, t: nat)
    requires |states| == |schedule| + 1 && Trace(c, schedule, states) && Init(states[0]) && k <= |schedule|
    requires 0 < c.intDestroy < WORD
    ensures var n := Retires(schedule, states, t, k);
            if t < |states[k].threads| then states[k].threads[t].nretired == Rem(n, c.intDestroy) else n == 0
  {
    hide Next, Enabled, Word, Trace, Init, Retires, Rem;
    RetiresOnce(schedule, states, t, k);
    if k == 0 {
      NobodyYet(c, schedule, states);
    } else {
      RetiredSoFar(c, schedule, states, k - 1, t);
      StepOf(c, schedule, states, k - 1);
      RetireCounted(c, states[k - 1], schedule[k - 1], t, Retires(schedule, states, t, k - 1));
    }
  }

  /** A thread scans its list after every `intDestroy`-th object it retires. */
  lemma ScanCounts(c: Config, schedule: seq<Event>, states: seq<State>, k: nat)
    requires Trace(c, schedule, states) && Init(states[0]) && k < |schedule| && 0 < c.intDestroy < WORD
    requires PutsOnList(states[k], schedule[k])
    ensures var t := schedule[k].t;
            t < |states[k + 1].threads|
            && (states[k + 1].threads[t].pc.ScanStart? <==> Retires(schedule, states, t, k + 1) % c.intDestroy == 0)
  {
    hide Next, Enabled, Word, Retires;
    var t := schedule[k].t;
    RetiresOnce(schedule, states, t, k + 1);
    RetiredSoFar(c, schedule, states, k, t);
    StepOf(c, schedule, states, k);
    RetireCounted(c, states[k], schedule[k], t, Retires(schedule, states, t, k));
  }

  lemma RetireCounted(c: Config, s: State, e: Event, t: nat, n: nat)
    requires Enabled(s, e.t, e.a) && 0 < c.intDestroy < WORD
    requires if t < |s.threads| then s.threads[t].nretired == Rem(n, c.intDestroy) else n == 0
    ensures var s' := Next(c, s, e.t, e.a);
            && |s'.threads| >= |s.threads|
            && var one := PutsOnList(s, e) && e.t == t;
            && (t < |s'.threads| ==> s'.threads[t].nretired == Rem(if one then n + 1 else n, c.intDestroy))
            && (one ==> (s'.threads[t].pc.ScanStart? <==> Rem(n + 1, c.intDestroy) == 0))
  {
    hide Next, Enabled, Word;
    RetireCountStep(c, s, e);
    if PutsOnList(s, e) && e.t == t {
      OneMore(n, c.intDestroy);
      OwnWord(s.threads[e.t].nretired + 1);
    }
  }

  // ----- Objects that were not retired -----

  /** A header is not written between its creation and its retirement. */
  predicate HeaderKept(s: State, s': State, o: ObjId) {
    o in s'.objs && o !in s'.died ==> o in s.objs && o !in s.died && s'.objs[o] == s.objs[o]
  }

  lemma HeaderStep(c: Config, s: State, e: Event, o: ObjId)
    requires Enabled(s, e.t, e.a)
    ensures var s' := Next(c, s, e.t, e.a);
            HeaderKept(s, s', o) || (o in s'.objs && s'.objs[o] == Header(Word(s.epoch), Word(Word(s.epoch) - 1)))
  {
    hide DoAdvance, DoSwap, Word;
    if e.a.Advance? { HeaderStays(c, s, e.t, o); }
    if e.a.Swap? { SwapKeepsHeader(s, e.t, e.a.ref, e.a.repl, o); }
  }

  lemma SwapKeepsHeader(s: State, t: nat, r: Ref, repl: Option<ObjId>, o: ObjId)
    requires Enabled(s, t, Swap(r, repl))
    ensures HeaderKept(s, DoSwap(s, t, r, repl), o)
  {}

  lemma HeaderStays(c: Config, s: State, t: nat, o: ObjId)
    requires Enabled(s, t, Advance)
    ensures HeaderKept(s, DoAdvance(c, s, t), o)
  {
    hide DoScan, DoRetireStore, Word;
    if s.threads[t].pc.Scan? { assert HeaderKept(s, DoScan(s, t), o) by { ScanKeepsHeader(s, t, o); } }
    if s.threads[t].pc.RetireStore? { RetireKeepsHeader(c, s, t, o); }
  }

  lemma ScanKeepsHeader(s: State, t: nat, o: ObjId)
    requires t < |s.threads| && s.threads[t].pc.Scan? && Fits(s, t)
    ensures HeaderKept(s, DoScan(s, t), o)
  {}

  lemma RetireKeepsHeader(c: Config, s: State, t: nat, o: ObjId)
    requires t < |s.threads| && s.threads[t].pc.RetireStore? && Fits(s, t)
    ensures HeaderKept(s, DoRetireStore(c, s, t), o)
  {
    hide Word;
  }

  lemma NewConflicts(created: nat, slot: nat)
    requires created < WORD && slot < WORD
    ensures Conflicts(created, Word(created - 1), slot)
  {}

  /** As long as an object was not retired, the test takes it for reserved, whatever is in a slot. */
  lemma {:induction false} LiveConflicts(c: Config, schedule: seq<Event>, states: seq<State>, k: nat, o: ObjId,
                                         slot: nat)
    requires |states| == |schedule| + 1 && Trace(c, schedule, states) && Init(states[0]) && k <= |schedule|
    requires o in states[k].objs && o !in states[k].died && slot < WORD
    ensures Conflicts(states[k].objs[o].created, states[k].objs[o].retired, slot)
  {
    hide Next, Enabled, Word, Conflicts, Trace;
    if k > 0 {
      StepOf(c, schedule, states, k - 1);
      HeaderStep(c, states[k - 1], schedule[k - 1], o);
      if HeaderKept(states[k - 1], states[k], o) {
        LiveConflicts(c, schedule, states, k - 1, o, slot);
      } else {
        NewConflicts(Word(states[k - 1].epoch), slot);
      }
    }
  }
}
