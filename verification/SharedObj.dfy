/**
 Epoch-based reclamation of shared objects (sharedobj.c).

 Any number of registered threads create objects, publish them through shared
 references, reserve what a reference points to, and retire what they swapped
 out. The model is a step relation with one step per atomic load or store of
 shared memory, interleaved arbitrarily (sequentially consistent memory).

 Epochs are counted without bound here; the program only ever sees `Word(e)`,
 the count truncated to 32 bits, and every comparison below is made on words.
 */
module SharedObj {
  import opened Common

  const WORD: int := 0x1_0000_0000

  /** The 32-bit unsigned value of a count; `Word(-1)` is the largest word. */
  function Word(n: int): (w: nat)
    ensures w < WORD
  {
    n % WORD
  }

  /** The scan's test: does reservation `tres` fall between the two epochs? */
  predicate Conflicts(creat: nat, retd: nat, tres: nat) {
    if creat > retd then tres >= creat || tres <= retd
    else tres >= creat && tres <= retd
  }

  type ObjId = nat
  type Ref = nat

  /** What the creating thread wrote into the object's header. */
  datatype Header = Header(created: nat, retired: nat)

  /** A successful reservation: the object returned and the epoch published. */
  datatype Hold = Hold(obj: ObjId, at: nat)

  /** Program counter of one thread, with the locals that are live there. */
  datatype Pc =
    | Idle
    | RetireLoad(o: ObjId)
    | RetireStore(o: ObjId, at: nat)
    | ScanStart
    | Scan(nt: nat, i: nat, slot: nat)
    | ReserveEpoch(ref: Ref)
    | ReserveStore(ref: Ref, at: nat)
    | ReserveLoad(ref: Ref, at: nat)
    | ReserveCheck(ref: Ref, at: nat, p: Option<ObjId>)
    | ReleaseEpoch
    | ReleaseStore(at: nat)

  datatype Thread = Thread(pc: Pc, held: Option<Hold>, ncreated: nat, nretired: nat, retired: seq<ObjId>)

  /** Bookkeeping: where an object is in its life. Never read by the program. */
  datatype Place = Private | Published(ref: Ref) | Unlinked(t: nat) | Listed(t: nat) | Destroyed

  /** The two intervals given to SOM_init. */
  datatype Config = Config(intEpoch: nat, intDestroy: nat)

  /**
   `nthr` is `|threads|`: a thread's tid is its index. `destroyed` logs the
   calls of the destructor; `born` and `died` record unbounded epochs.
   */
  datatype State = State(
    epoch: nat,
    res: seq<nat>,
    threads: seq<Thread>,
    refs: map<Ref, Option<ObjId>>,
    objs: map<ObjId, Header>,
    destroyed: seq<ObjId>,
    place: map<ObjId, Place>,
    born: map<ObjId, nat>,
    died: map<ObjId, nat>)

  datatype Action =
    | Register
    | Create(o: ObjId)
    | Swap(ref: Ref, repl: Option<ObjId>)
    | Reserve(ref: Ref)
    | Release
    | Advance

  // ----- The step relation -----

  predicate Enabled(s: State, t: nat, a: Action) {
    match a
    case Register => |s.threads| < |s.res|
    case Create(o) => t < |s.threads| && s.threads[t].pc.Idle? && o !in s.objs
    case Swap(r, repl) =>
      && t < |s.threads| && s.threads[t].pc.Idle? && r in s.refs
      && (repl.Some? ==> repl.value in s.place && s.place[repl.value].Private?)
    case Reserve(r) => t < |s.threads| && s.threads[t].pc.Idle? && r in s.refs
    case Release => t < |s.threads| && s.threads[t].pc.Idle?
    case Advance => t < |s.threads| && !s.threads[t].pc.Idle? && Fits(s, t)
  }

  /** Memory safety of the next access; kept by every step (see `Inv`). */
  predicate Fits(s: State, t: nat)
    requires t < |s.threads|
  {
    var th := s.threads[t];
    && t < |s.res|
    && (th.pc.RetireStore? ==> th.pc.o in s.objs)
    && (th.pc.Scan? ==> th.pc.i <= |th.retired| && th.pc.nt <= |s.res|
                        && forall o :: o in th.retired ==> o in s.objs)
    && (th.pc.ReserveLoad? ==> th.pc.ref in s.refs)
  }

  function WithThread(s: State, t: nat, th: Thread): State
    requires t < |s.threads|
  {
    s.(threads := s.threads[t := th])
  }

  function WithPc(s: State, t: nat, pc: Pc): State
    requires t < |s.threads|
  {
    WithThread(s, t, s.threads[t].(pc := pc))
  }

  /** SharedObj_create: every `intEpoch`-th creation of a thread advances the epoch. */
  function DoCreate(c: Config, s: State, t: nat, o: ObjId): State
    requires Enabled(s, t, Create(o))
  {
    var th := s.threads[t];
    var n := Word(th.ncreated + 1);
    var bump := n == c.intEpoch;
    WithThread(s, t, th.(ncreated := if bump then 0 else n))
    .(epoch := if bump then s.epoch + 1 else s.epoch,
      objs := s.objs[o := Header(Word(s.epoch), Word(Word(s.epoch) - 1))],
      place := s.place[o := Private],
      born := s.born[o := s.epoch])
  }

  /** The client's atomic exchange; the old object, if any, is handed to retire. */
  function DoSwap(s: State, t: nat, r: Ref, repl: Option<ObjId>): State
    requires Enabled(s, t, Swap(r, repl))
  {
    var prev := s.refs[r];
    var pub := if repl.Some? then s.place[repl.value := Published(r)] else s.place;
    WithPc(s, t, if prev.Some? then RetireLoad(prev.value) else Idle)
    .(refs := s.refs[r := repl],
      place := if prev.Some? then pub[prev.value := Unlinked(t)] else pub)
  }

  /** One step of the retire-time scan over the thread's own list. */
  function DoScan(s: State, t: nat): State
    requires t < |s.threads| && s.threads[t].pc.Scan? && Fits(s, t)
  {
    var th := s.threads[t];
    var Scan(nt, i, slot) := th.pc;
    if i == |th.retired| then WithPc(s, t, Idle)
    else
      var o := th.retired[i];
      if slot < nt then
        if Conflicts(s.objs[o].created, s.objs[o].retired, s.res[slot])
        then WithPc(s, t, Scan(nt, i + 1, 0))
        else WithPc(s, t, Scan(nt, i, slot + 1))
      else
        WithThread(s, t, th.(pc := Scan(nt, i, 0), retired := th.retired[..i] + th.retired[i + 1..]))
        .(destroyed := s.destroyed + [o], place := s.place[o := Destroyed])
  }

  /** Storing the retirement epoch and linking into the thread's list. */
  function DoRetireStore(c: Config, s: State, t: nat): State
    requires t < |s.threads| && s.threads[t].pc.RetireStore? && Fits(s, t)
  {
    var th := s.threads[t];
    var RetireStore(o, at) := th.pc;
    var n := Word(th.nretired + 1);
    var scan := n == c.intDestroy;
    WithThread(s, t, th.(retired := [o] + th.retired, nretired := if scan then 0 else n,
                         pc := if scan then ScanStart else Idle))
    .(objs := s.objs[o := s.objs[o].(retired := Word(at))],
      place := s.place[o := Listed(t)],
      died := s.died[o := at])
  }

  function DoAdvance(c: Config, s: State, t: nat): State
    requires Enabled(s, t, Advance)
  {
    var th := s.threads[t];
    match th.pc
    case Idle => s
    case RetireLoad(o) => WithPc(s, t, RetireStore(o, s.epoch))
    case RetireStore(_, _) => DoRetireStore(c, s, t)
    case ScanStart => WithPc(s, t, Scan(|s.threads|, 0, 0))
    case Scan(_, _, _) => DoScan(s, t)
    case ReserveEpoch(r) => WithPc(s, t, ReserveStore(r, s.epoch))
    case ReserveStore(r, at) =>
      WithThread(s, t, th.(pc := ReserveLoad(r, at), held := None)).(res := s.res[t := Word(at)])
    case ReserveLoad(r, at) => WithPc(s, t, ReserveCheck(r, at, s.refs[r]))
    case ReserveCheck(r, at, p) =>
      if Word(at) == Word(s.epoch) then
        WithThread(s, t, th.(pc := Idle, held := if p.Some? then Some(Hold(p.value, at)) else None))
      else WithPc(s, t, ReserveEpoch(r))
    case ReleaseEpoch => WithPc(s, t, ReleaseStore(s.epoch))
    case ReleaseStore(at) =>
      WithThread(s, t, th.(pc := Idle, held := None)).(res := s.res[t := Word(Word(at) - 1)])
  }

  function Next(c: Config, s: State, t: nat, a: Action): State
    requires Enabled(s, t, a)
  {
    match a
    case Register => s.(threads := s.threads + [Thread(Idle, None, 0, 0, [])])
    case Create(o) => DoCreate(c, s, t, o)
    case Swap(r, repl) => DoSwap(s, t, r, repl)
    case Reserve(r) => WithPc(s, t, ReserveEpoch(r))
    case Release => WithPc(s, t, ReleaseEpoch)
    case Advance => DoAdvance(c, s, t)
  }

  /** Program start: no thread registered, nothing published, slots uninitialised. */
  predicate Init(s: State) {
    && s.epoch == 0 && s.threads == [] && s.objs == map[] && s.destroyed == []
    && s.place == map[] && s.born == map[] && s.died == map[]
    && forall r :: r in s.refs ==> s.refs[r] == None
  }

  /** A scheduled step: which thread moves, and what it does. */
  datatype Event = Event(t: nat, a: Action)

  /** Executing the schedule from `s` is possible and ends in `s'`. */
  predicate Runs(c: Config, s: State, schedule: seq<Event>, s': State)
    decreases |schedule|
  {
    if schedule == [] then s == s'
    else
      && Enabled(s, schedule[0].t, schedule[0].a)
      && Runs(c, Next(c, s, schedule[0].t, schedule[0].a), schedule[1..], s')
  }

  /** Shorter than 2^32 epochs, or one short of a full number of laps of the epoch word. */
  predicate LifeOk(life: int) {
    life < WORD || (life + 1) % WORD == 0
  }

  /** The second epoch load of a round of SOM_reserve sees the first one's word only if no epoch passed. */
  predicate RoundOk(at: nat, now: nat) {
    now == at || Word(now) != Word(at)
  }

  /** No harmful lap of a 32-bit count, in the life of an object or in a round of SOM_reserve. */
  ghost predicate Unlapped(s: State) {
    && (forall o :: o in s.died && o in s.born ==> LifeOk(s.died[o] as int - s.born[o]))
    && (forall t :: 0 <= t < |s.threads| && s.threads[t].pc.ReserveCheck? ==>
          RoundOk(s.threads[t].pc.at, s.epoch))
  }

  /** No harmful lap in any state the schedule passes through. */
  ghost predicate UnlappedAlong(c: Config, s: State, schedule: seq<Event>)
    decreases |schedule|
  {
    && Unlapped(s)
    && (schedule != [] && Enabled(s, schedule[0].t, schedule[0].a) ==>
          UnlappedAlong(c, Next(c, s, schedule[0].t, schedule[0].a), schedule[1..]))
  }

  // ----- The invariant -----

  predicate NoDup(xs: seq<ObjId>) {
    forall i, j :: 0 <= i < j < |xs| ==> xs[i] != xs[j]
  }

  /** What holds of one thread at each program point. */
  predicate ThreadOk(s: State, t: nat)
    requires t < |s.threads| <= |s.res|
  {
    var th := s.threads[t];
    && (th.pc.ReserveStore? || th.pc.ReserveLoad? || th.pc.ReserveCheck? ==> th.pc.at <= s.epoch)
    && (th.pc.ReserveEpoch? || th.pc.ReserveStore? || th.pc.ReserveLoad? || th.pc.ReserveCheck? ==>
          th.pc.ref in s.refs)
    && (th.pc.ReserveLoad? || th.pc.ReserveCheck? ==> s.res[t] == Word(th.pc.at) && th.held.None?)
    && (th.pc.Scan? ==> th.pc.nt <= |s.threads| && th.pc.i <= |th.retired| && th.pc.slot <= th.pc.nt)
    && (th.pc.RetireLoad? || th.pc.RetireStore? ==> th.pc.o in s.place && s.place[th.pc.o] == Unlinked(t))
    && (th.pc.RetireStore? ==> th.pc.o in s.born && s.born[th.pc.o] <= th.pc.at <= s.epoch)
    && (forall o :: o in th.retired ==> o in s.place && s.place[o] == Listed(t))
    && NoDup(th.retired)
  }

  /** An object's header holds the words of its recorded epochs, and it is where it is recorded to be. */
  predicate ObjOk(s: State, o: ObjId)
    requires o in s.objs && o in s.place && o in s.born
  {
    && s.born[o] <= s.epoch && s.objs[o].created == Word(s.born[o])
    && (s.place[o].Listed? ==> s.place[o].t < |s.threads| && o in s.threads[s.place[o].t].retired)
    && (o in s.destroyed <==> s.place[o].Destroyed?)
    && (o in s.died <==> s.place[o].Listed? || s.place[o].Destroyed?)
    && (o in s.died ==> s.born[o] <= s.died[o] <= s.epoch && s.objs[o].retired == Word(s.died[o]))
  }

  predicate RefOk(s: State, r: Ref)
    requires r in s.refs
  {
    s.refs[r].Some? ==> s.refs[r].value in s.place && s.place[s.refs[r].value] == Published(r)
  }

  ghost predicate Shaped(s: State) {
    && |s.threads| <= |s.res|
    && s.place.Keys == s.objs.Keys == s.born.Keys && s.died.Keys <= s.objs.Keys
    && (forall t :: 0 <= t < |s.threads| ==> ThreadOk(s, t))
    && (forall o :: o in s.objs ==> ObjOk(s, o))
    && (forall r :: r in s.refs ==> RefOk(s, r))
    && (forall o :: o in s.destroyed ==> o in s.objs)
    && NoDup(s.destroyed)
  }

  /**
   Thread `t` has, or may still get, `o` with its slot at epoch `e`: a returned
   reservation, or one whose second epoch load would still see `e`.
   */
  predicate Guards(s: State, t: nat, o: ObjId, e: nat) {
    && t < |s.threads|
    && (s.threads[t].held == Some(Hold(o, e))
        || (s.threads[t].pc.ReserveCheck? && s.threads[t].pc.p == Some(o) && s.threads[t].pc.at == e && e == s.epoch))
  }

  /**
   Thread `u` cannot miss a reservation of `o` that thread `t` made at `e`: it
   retires `o` no earlier than `e`, and its scan has yet to pass the slot of `t`.
   */
  predicate NotPassed(s: State, u: nat, t: nat, o: ObjId, e: nat)
    requires u < |s.threads|
  {
    var th := s.threads[u];
    && (th.pc.Scan? && o in th.retired ==>
          && t < th.pc.nt
          && (th.pc.i < |th.retired| && th.retired[th.pc.i] == o ==> th.pc.slot <= t))
    && (th.pc.RetireStore? && th.pc.o == o ==> e <= th.pc.at)
  }

  ghost predicate Protected(s: State, t: nat, o: ObjId, e: nat) {
    && t < |s.res| && s.res[t] == Word(e) && e <= s.epoch
    && o in s.born && s.born[o] <= e
    && o in s.place && !s.place[o].Destroyed?
    && (o in s.died ==> e <= s.died[o])
    && (forall u :: 0 <= u < |s.threads| ==> NotPassed(s, u, t, o, e))
  }

  ghost predicate Guarded(s: State) {
    forall t, o, e :: Guards(s, t, o, e) ==> Protected(s, t, o, e)
  }

  ghost predicate Inv(s: State) {
    Shaped(s) && Guarded(s)
  }

  // ----- The wraparound test -----

  /** The test is membership in the arc that runs from `c` up to `r` around the circle of words. */
  lemma ConflictIsCyclicInterval(c: nat, r: nat, e: nat)
    ensures Conflicts(Word(c), Word(r), Word(e)) <==> Word(e - c) <= Word(r - c)
  {
    DifferenceOfWords(e, c);
    DifferenceOfWords(r, c);
  }

  lemma DifferenceOfWords(a: nat, b: nat)
    ensures Word(a - b) == if Word(a) >= Word(b) then Word(a) - Word(b) else Word(a) - Word(b) + WORD
  {
    var qa, qb := a / WORD, b / WORD;
    assert a - b == (qa - qb) * WORD + (Word(a) - Word(b));
    WordOf(qa - qb, Word(a) - Word(b));
  }

  lemma WordOf(q: int, d: int)
    requires -WORD < d < WORD
    ensures Word(q * WORD + d) == if d >= 0 then d else d + WORD
  {
    if d >= 0 {
      assert (q * WORD + d) / WORD == q;
    } else {
      assert q * WORD + d == (q - 1) * WORD + (d + WORD);
      assert ((q - 1) * WORD + (d + WORD)) / WORD == q - 1;
    }
  }

  /**
   A reservation anywhere in an object's life is always seen by the test exactly
   when the life is shorter than 2^32 epochs, or ends one short of a full number
   of laps (the arc is then the whole circle).
   */
  lemma TestIsSoundIff(c: nat, r: nat)
    requires c <= r
    ensures (forall e: nat :: c <= e <= r ==> Conflicts(Word(c), Word(r), Word(e)))
            <==> LifeOk(r - c)
  {
    if r - c < WORD {
      forall e: nat | c <= e <= r ensures Conflicts(Word(c), Word(r), Word(e)) {
        ConflictIsCyclicInterval(c, r, e);
      }
    } else if (r - c + 1) % WORD == 0 {
      forall e: nat | c <= e <= r ensures Conflicts(Word(c), Word(r), Word(e)) {
        ConflictIsCyclicInterval(c, r, e);
        assert Word(r - c) == WORD - 1;
      }
    } else {
      var e := c + Word(r - c) + 1;
      ConflictIsCyclicInterval(c, r, e);
      assert Word(r - c) != WORD - 1;
      assert !Conflicts(Word(c), Word(r), Word(e));
    }
  }

  // ----- Every step keeps the invariant -----

  lemma RegisterKeeps(s: State)
    requires Inv(s) && |s.threads| < |s.res|
    ensures Inv(s.(threads := s.threads + [Thread(Idle, None, 0, 0, [])]))
  {
    var s' := s.(threads := s.threads + [Thread(Idle, None, 0, 0, [])]);
    forall t | 0 <= t < |s'.threads| ensures ThreadOk(s', t) {
      if t < |s.threads| { assert ThreadOk(s, t); }
    }
    forall x | x in s'.objs ensures ObjOk(s', x) { assert ObjOk(s, x); }
    forall r | r in s'.refs ensures RefOk(s', r) { assert RefOk(s, r); }
    forall t, o, e | Guards(s', t, o, e) ensures Protected(s', t, o, e) {
      assert Guards(s, t, o, e);
      forall u | 0 <= u < |s'.threads| ensures NotPassed(s', u, t, o, e) {
        if u < |s.threads| { assert NotPassed(s, u, t, o, e); }
      }
    }
  }

  lemma CreateKeeps(c: Config, s: State, t: nat, o: ObjId)
    requires Inv(s) && Enabled(s, t, Create(o))
    ensures Inv(DoCreate(c, s, t, o))
  {
    CreateKeepsPlaces(c, s, t, o);
    var s' := DoCreate(c, s, t, o);
    forall u, x, e | Guards(s', u, x, e) ensures Protected(s', u, x, e) {
      assert ThreadOk(s, u);
      assert Guards(s, u, x, e);
      forall v | 0 <= v < |s'.threads| ensures NotPassed(s', v, u, x, e) { assert NotPassed(s, v, u, x, e); }
    }
  }

  lemma CreateKeepsPlaces(c: Config, s: State, t: nat, o: ObjId)
    requires Shaped(s) && Enabled(s, t, Create(o))
    ensures Shaped(DoCreate(c, s, t, o))
  {
    var s' := DoCreate(c, s, t, o);
    forall u | 0 <= u < |s'.threads| ensures ThreadOk(s', u) { assert ThreadOk(s, u); }
    forall x | x in s'.objs ensures ObjOk(s', x) { assert x in s.objs ==> ObjOk(s, x); }
    forall r | r in s'.refs ensures RefOk(s', r) { assert RefOk(s, r); }
  }

  lemma SwapKeeps(s: State, t: nat, r: Ref, repl: Option<ObjId>)
    requires Inv(s) && Enabled(s, t, Swap(r, repl))
    ensures Inv(DoSwap(s, t, r, repl))
  {
    SwapKeepsPlaces(s, t, r, repl);
    SwapKeepsGuards(s, t, r, repl);
  }

  lemma SwapKeepsPlaces(s: State, t: nat, r: Ref, repl: Option<ObjId>)
    requires Shaped(s) && Enabled(s, t, Swap(r, repl))
    ensures Shaped(DoSwap(s, t, r, repl))
  {
    var s' := DoSwap(s, t, r, repl);
    assert ThreadOk(s, t);
    SwapKeepsThreads(s, t, r, repl);
    forall x | x in s'.objs ensures ObjOk(s', x) { assert x in s.objs ==> ObjOk(s, x); }
    forall r | r in s'.refs ensures RefOk(s', r) { assert RefOk(s, r); }
  }

  lemma SwapKeepsThreads(s: State, t: nat, r: Ref, repl: Option<ObjId>)
    requires Shaped(s) && Enabled(s, t, Swap(r, repl))
    ensures var s' := DoSwap(s, t, r, repl);
            |s'.threads| <= |s'.res| && forall u :: 0 <= u < |s'.threads| ==> ThreadOk(s', u)
  {
    var s' := DoSwap(s, t, r, repl);
    assert ThreadOk(s, t);
    forall u | 0 <= u < |s'.threads| ensures ThreadOk(s', u) { assert ThreadOk(s, u); }
  }

  lemma SwapKeepsGuards(s: State, t: nat, r: Ref, repl: Option<ObjId>)
    requires Inv(s) && Enabled(s, t, Swap(r, repl))
    ensures Guarded(DoSwap(s, t, r, repl))
  {
    var s' := DoSwap(s, t, r, repl);
    assert ThreadOk(s, t);
    forall u, x, e | Guards(s', u, x, e) ensures Protected(s', u, x, e) {
      assert Guards(s, u, x, e);
      forall v | 0 <= v < |s'.threads| ensures NotPassed(s', v, u, x, e) { assert NotPassed(s, v, u, x, e); }
    }
  }

  /** Moving only a program counter leaves objects and references as they are. */
  lemma PcShape(s: State, t: nat, pc: Pc)
    requires Shaped(s) && t < |s.threads| && ThreadOk(WithPc(s, t, pc), t)
    ensures Shaped(WithPc(s, t, pc))
  {
    var s' := WithPc(s, t, pc);
    forall u | 0 <= u < |s'.threads| ensures ThreadOk(s', u) { assert ThreadOk(s, u); }
    forall x | x in s'.objs ensures ObjOk(s', x) { assert ObjOk(s, x); }
    forall r | r in s'.refs ensures RefOk(s', r) { assert RefOk(s, r); }
  }

  /** Moving a program counter to a point that neither guards, unlinks nor scans. */
  lemma PlainMoveKeeps(s: State, t: nat, pc: Pc)
    requires Inv(s) && t < |s.threads|
    requires s.threads[t].pc.Idle? || s.threads[t].pc.ReserveEpoch? || s.threads[t].pc.ReleaseEpoch?
             || s.threads[t].pc.ReserveCheck? || s.threads[t].pc.Scan?
    requires pc.Idle? || pc.ReserveEpoch? || pc.ReserveStore? || pc.ReleaseEpoch? || pc.ReleaseStore?
    requires pc.ReserveEpoch? || pc.ReserveStore? ==> pc.ref in s.refs
    requires pc.ReserveStore? ==> pc.at <= s.epoch
    ensures Inv(WithPc(s, t, pc))
  {
    var s' := WithPc(s, t, pc);
    assert ThreadOk(s, t);
    PcShape(s, t, pc);
    forall u, x, e | Guards(s', u, x, e) ensures Protected(s', u, x, e) {
      assert Guards(s, u, x, e);
      forall v | 0 <= v < |s'.threads| ensures NotPassed(s', v, u, x, e) { assert NotPassed(s, v, u, x, e); }
    }
  }

  lemma RetireLoadKeeps(c: Config, s: State, t: nat)
    requires Inv(s) && Enabled(s, t, Advance) && s.threads[t].pc.RetireLoad?
    ensures Inv(DoAdvance(c, s, t))
  {
    assert ThreadOk(s, t) && ObjOk(s, s.threads[t].pc.o);
    PcShape(s, t, RetireStore(s.threads[t].pc.o, s.epoch));
    RetireLoadKeepsGuards(c, s, t);
  }

  lemma RetireLoadKeepsGuards(c: Config, s: State, t: nat)
    requires Inv(s) && Enabled(s, t, Advance) && s.threads[t].pc.RetireLoad?
    ensures Guarded(DoAdvance(c, s, t))
  {
    var s' := DoAdvance(c, s, t);
    assert ThreadOk(s, t);
    forall u, x, e | Guards(s', u, x, e) ensures Protected(s', u, x, e) {
      assert Guards(s, u, x, e);
      forall v | 0 <= v < |s'.threads| ensures NotPassed(s', v, u, x, e) { assert NotPassed(s, v, u, x, e); }
    }
  }

  lemma RetireStoreKeeps(c: Config, s: State, t: nat)
    requires Inv(s) && Enabled(s, t, Advance) && s.threads[t].pc.RetireStore?
    ensures Inv(DoAdvance(c, s, t))
  {
    RetireStoreKeepsPlaces(c, s, t);
    RetireStoreKeepsGuards(c, s, t);
  }

  lemma RetireStoreKeepsPlaces(c: Config, s: State, t: nat)
    requires Shaped(s) && Enabled(s, t, Advance) && s.threads[t].pc.RetireStore?
    ensures Shaped(DoAdvance(c, s, t))
  {
    var s' := DoAdvance(c, s, t);
    assert ObjOk(s, s.threads[t].pc.o);
    assert ThreadOk(s, t);
    RetireStoreKeepsThreads(c, s, t);
    forall x | x in s'.objs ensures ObjOk(s', x) { assert x in s.objs ==> ObjOk(s, x); }
    forall r | r in s'.refs ensures RefOk(s', r) { assert RefOk(s, r); }
  }

  lemma RetireStoreKeepsThreads(c: Config, s: State, t: nat)
    requires Shaped(s) && Enabled(s, t, Advance) && s.threads[t].pc.RetireStore?
    ensures var s' := DoAdvance(c, s, t);
            |s'.threads| <= |s'.res| && forall u :: 0 <= u < |s'.threads| ==> ThreadOk(s', u)
  {
    var s' := DoAdvance(c, s, t);
    assert ObjOk(s, s.threads[t].pc.o);
    assert ThreadOk(s, t);
    forall u | 0 <= u < |s'.threads| ensures ThreadOk(s', u) { assert ThreadOk(s, u); }
  }

  lemma RetireStoreKeepsGuards(c: Config, s: State, t: nat)
    requires Inv(s) && Enabled(s, t, Advance) && s.threads[t].pc.RetireStore?
    ensures Guarded(DoAdvance(c, s, t))
  {
    var s' := DoAdvance(c, s, t);
    assert ObjOk(s, s.threads[t].pc.o);
    assert ThreadOk(s, t);
    forall u, x, e | Guards(s', u, x, e) ensures Protected(s', u, x, e) {
      assert Guards(s, u, x, e);
      assert NotPassed(s, t, u, x, e);
      forall v | 0 <= v < |s'.threads| ensures NotPassed(s', v, u, x, e) { assert NotPassed(s, v, u, x, e); }
    }
  }

  lemma ReserveKeeps(c: Config, s: State, t: nat)
    requires Inv(s) && Enabled(s, t, Advance)
    requires s.threads[t].pc.ReserveStore? || s.threads[t].pc.ReserveLoad? || s.threads[t].pc.ReleaseStore?
    ensures Inv(DoAdvance(c, s, t))
  {
    ReserveKeepsPlaces(c, s, t);
    ReserveKeepsGuards(c, s, t);
  }

  lemma ReserveKeepsPlaces(c: Config, s: State, t: nat)
    requires Shaped(s) && Enabled(s, t, Advance)
    requires s.threads[t].pc.ReserveStore? || s.threads[t].pc.ReserveLoad? || s.threads[t].pc.ReleaseStore?
    ensures Shaped(DoAdvance(c, s, t))
  {
    var s' := DoAdvance(c, s, t);
    assert ThreadOk(s, t);
    ReserveKeepsThreads(c, s, t);
    forall x | x in s'.objs ensures ObjOk(s', x) { assert x in s.objs ==> ObjOk(s, x); }
    forall r | r in s'.refs ensures RefOk(s', r) { assert RefOk(s, r); }
  }

  lemma ReserveKeepsThreads(c: Config, s: State, t: nat)
    requires Shaped(s) && Enabled(s, t, Advance)
    requires s.threads[t].pc.ReserveStore? || s.threads[t].pc.ReserveLoad? || s.threads[t].pc.ReleaseStore?
    ensures var s' := DoAdvance(c, s, t);
            |s'.threads| <= |s'.res| && forall u :: 0 <= u < |s'.threads| ==> ThreadOk(s', u)
  {
    var s' := DoAdvance(c, s, t);
    assert ThreadOk(s, t);
    forall u | 0 <= u < |s'.threads| ensures ThreadOk(s', u) { assert ThreadOk(s, u); }
  }

  lemma ReserveKeepsGuards(c: Config, s: State, t: nat)
    requires Inv(s) && Enabled(s, t, Advance)
    requires s.threads[t].pc.ReserveStore? || s.threads[t].pc.ReserveLoad? || s.threads[t].pc.ReleaseStore?
    ensures Guarded(DoAdvance(c, s, t))
  {
    var s' := DoAdvance(c, s, t);
    assert ThreadOk(s, t);
    forall u, x, e | Guards(s', u, x, e) ensures Protected(s', u, x, e) {
      if u != t || s.threads[t].held == Some(Hold(x, e)) {
        assert Guards(s, u, x, e);
      } else {
        assert RefOk(s, s.threads[t].pc.ref) && ObjOk(s, x);
      }
      forall v | 0 <= v < |s'.threads| ensures NotPassed(s', v, u, x, e) {
        assert ThreadOk(s, v);
        assert Guards(s, u, x, e) ==> NotPassed(s, v, u, x, e);
      }
    }
  }

  lemma ReserveCheckKeeps(c: Config, s: State, t: nat)
    requires Inv(s) && Unlapped(s) && Enabled(s, t, Advance) && s.threads[t].pc.ReserveCheck?
    ensures Inv(DoAdvance(c, s, t))
  {
    var s' := DoAdvance(c, s, t);
    var ReserveCheck(r, at, p) := s.threads[t].pc;
    assert ThreadOk(s, t);
    if Word(at) == Word(s.epoch) {
      assert at == s.epoch;
      forall u | 0 <= u < |s'.threads| ensures ThreadOk(s', u) { assert ThreadOk(s, u); }
      forall x | x in s'.objs ensures ObjOk(s', x) { assert ObjOk(s, x); }
      forall r | r in s'.refs ensures RefOk(s', r) { assert RefOk(s, r); }
      forall u, x, e | Guards(s', u, x, e) ensures Protected(s', u, x, e) {
        assert Guards(s, u, x, e);
        forall v | 0 <= v < |s'.threads| ensures NotPassed(s', v, u, x, e) { assert NotPassed(s, v, u, x, e); }
      }
    } else {
      PlainMoveKeeps(s, t, ReserveEpoch(r));
    }
  }

  lemma ScanStartKeeps(c: Config, s: State, t: nat)
    requires Inv(s) && Enabled(s, t, Advance) && s.threads[t].pc.ScanStart?
    ensures Inv(DoAdvance(c, s, t))
  {
    var s' := DoAdvance(c, s, t);
    assert ThreadOk(s, t);
    PcShape(s, t, Scan(|s.threads|, 0, 0));
    forall u, x, e | Guards(s', u, x, e) ensures Protected(s', u, x, e) {
      assert Guards(s, u, x, e);
      forall v | 0 <= v < |s'.threads| ensures NotPassed(s', v, u, x, e) { assert NotPassed(s, v, u, x, e); }
    }
  }

  /** A slot that guards the object under test always answers the scan. */
  lemma GuardAnswers(s: State, t: nat, g: nat, e: nat)
    requires Inv(s) && Unlapped(s) && t < |s.threads| && s.threads[t].pc.Scan?
    requires s.threads[t].pc.i < |s.threads[t].retired|
    requires Guards(s, g, s.threads[t].retired[s.threads[t].pc.i], e)
    ensures var o := s.threads[t].retired[s.threads[t].pc.i];
            Conflicts(s.objs[o].created, s.objs[o].retired, s.res[g])
  {
    var o := s.threads[t].retired[s.threads[t].pc.i];
    assert Protected(s, g, o, e);
    assert ThreadOk(s, t) && ObjOk(s, o);
    TestIsSoundIff(s.born[o], s.died[o]);
  }

  lemma ScanSlotKeeps(s: State, t: nat)
    requires Inv(s) && Unlapped(s) && t < |s.threads| && s.threads[t].pc.Scan? && Fits(s, t)
    requires s.threads[t].pc.i < |s.threads[t].retired| && s.threads[t].pc.slot < s.threads[t].pc.nt
    ensures Inv(DoScan(s, t))
  {
    assert ThreadOk(s, t);
    PcShape(s, t, DoScan(s, t).threads[t].pc);
    ScanSlotKeepsGuards(s, t);
  }

  lemma ScanSlotKeepsGuards(s: State, t: nat)
    requires Inv(s) && Unlapped(s) && t < |s.threads| && s.threads[t].pc.Scan? && Fits(s, t)
    requires s.threads[t].pc.i < |s.threads[t].retired| && s.threads[t].pc.slot < s.threads[t].pc.nt
    ensures Guarded(DoScan(s, t))
  {
    hide LifeOk, RoundOk, Fits;
    var s' := DoScan(s, t);
    assert ThreadOk(s, t);
    forall u, x, e | Guards(s', u, x, e) ensures Protected(s', u, x, e) {
      assert Guards(s, u, x, e);
      if x == s.threads[t].retired[s.threads[t].pc.i] { GuardAnswers(s, t, u, e); }
      forall v | 0 <= v < |s'.threads| ensures NotPassed(s', v, u, x, e) { assert NotPassed(s, v, u, x, e); }
    }
  }

  /** The destructor runs only on what no slot guards. */
  lemma DestroyKeeps(s: State, t: nat)
    requires Inv(s) && t < |s.threads| && s.threads[t].pc.Scan? && Fits(s, t)
    requires s.threads[t].pc.i < |s.threads[t].retired| && s.threads[t].pc.slot == s.threads[t].pc.nt
    ensures Inv(DoScan(s, t))
  {
    DestroyKeepsPlaces(s, t);
    DestroyKeepsGuards(s, t);
  }

  lemma DestroyKeepsPlaces(s: State, t: nat)
    requires Shaped(s) && t < |s.threads| && s.threads[t].pc.Scan? && Fits(s, t)
    requires s.threads[t].pc.i < |s.threads[t].retired| && s.threads[t].pc.slot == s.threads[t].pc.nt
    ensures Shaped(DoScan(s, t))
  {
    var s' := DoScan(s, t);
    var th := s.threads[t];
    assert ThreadOk(s, t);
    forall x ensures x in s'.threads[t].retired <==> x in th.retired && x != th.retired[th.pc.i] {
      RemovedAt(th.retired, th.pc.i, x);
    }
    DestroyKeepsThreads(s, t);
    var o := th.retired[th.pc.i];
    assert o in th.retired && ObjOk(s, o) && o !in s.destroyed;
    forall x | x in s'.objs ensures ObjOk(s', x) { assert x in s.objs ==> ObjOk(s, x); }
    forall r | r in s'.refs ensures RefOk(s', r) { assert RefOk(s, r); }
  }

  lemma DestroyKeepsThreads(s: State, t: nat)
    requires Shaped(s) && t < |s.threads| && s.threads[t].pc.Scan? && Fits(s, t)
    requires s.threads[t].pc.i < |s.threads[t].retired| && s.threads[t].pc.slot == s.threads[t].pc.nt
    ensures var s' := DoScan(s, t);
            |s'.threads| <= |s'.res| && forall u :: 0 <= u < |s'.threads| ==> ThreadOk(s', u)
  {
    var s' := DoScan(s, t);
    var th := s.threads[t];
    assert ThreadOk(s, t);
    forall x ensures x in s'.threads[t].retired <==> x in th.retired && x != th.retired[th.pc.i] {
      RemovedAt(th.retired, th.pc.i, x);
    }
    forall u | 0 <= u < |s'.threads| ensures ThreadOk(s', u) { assert ThreadOk(s, u); }
  }

  lemma DestroyKeepsGuards(s: State, t: nat)
    requires Inv(s) && t < |s.threads| && s.threads[t].pc.Scan? && Fits(s, t)
    requires s.threads[t].pc.i < |s.threads[t].retired| && s.threads[t].pc.slot == s.threads[t].pc.nt
    ensures Guarded(DoScan(s, t))
  {
    var s' := DoScan(s, t);
    var th := s.threads[t];
    assert ThreadOk(s, t);
    forall x ensures x in s'.threads[t].retired <==> x in th.retired && x != th.retired[th.pc.i] {
      RemovedAt(th.retired, th.pc.i, x);
    }
    forall u, x, e | Guards(s', u, x, e) ensures Protected(s', u, x, e) {
      assert Guards(s, u, x, e);
      assert NotPassed(s, t, u, x, e);
      forall v | 0 <= v < |s'.threads| ensures NotPassed(s', v, u, x, e) { assert NotPassed(s, v, u, x, e); }
    }
  }

  lemma RemovedAt(xs: seq<ObjId>, i: nat, x: ObjId)
    requires i < |xs| && NoDup(xs)
    ensures x in xs[..i] + xs[i + 1..] <==> x in xs && x != xs[i]
  {
    var rest := xs[..i] + xs[i + 1..];
    if x in xs && x != xs[i] {
      var j :| 0 <= j < |xs| && xs[j] == x;
      assert rest[if j < i then j else j - 1] == x;
    }
  }

  lemma StepKeeps(c: Config, s: State, t: nat, a: Action)
    requires Inv(s) && Unlapped(s) && Enabled(s, t, a)
    ensures Inv(Next(c, s, t, a))
  {
    match a
    case Register => RegisterKeeps(s);
    case Create(o) => CreateKeeps(c, s, t, o);
    case Swap(r, repl) => SwapKeeps(s, t, r, repl);
    case Reserve(r) => PlainMoveKeeps(s, t, ReserveEpoch(r));
    case Release => PlainMoveKeeps(s, t, ReleaseEpoch);
    case Advance =>
      assert ThreadOk(s, t);
      match s.threads[t].pc
      case RetireLoad(_) => RetireLoadKeeps(c, s, t);
      case RetireStore(_, _) => RetireStoreKeeps(c, s, t);
      case ScanStart => ScanStartKeeps(c, s, t);
      case Scan(nt, i, slot) =>
        if i == |s.threads[t].retired| { PlainMoveKeeps(s, t, Idle); }
        else if slot < nt { ScanSlotKeeps(s, t); }
        else { DestroyKeeps(s, t); }
      case ReserveEpoch(r) => PlainMoveKeeps(s, t, ReserveStore(r, s.epoch));
      case ReserveCheck(_, _, _) => ReserveCheckKeeps(c, s, t);
      case ReleaseEpoch => PlainMoveKeeps(s, t, ReleaseStore(s.epoch));
      case _ => ReserveKeeps(c, s, t);
  }

  // ----- Safety over whole runs -----

  lemma {:induction false} RunKeeps(c: Config, s: State, schedule: seq<Event>, s': State)
    requires Inv(s) && Runs(c, s, schedule, s') && UnlappedAlong(c, s, schedule)
    ensures Inv(s')
    decreases |schedule|
  {
    if schedule != [] {
      StepKeeps(c, s, schedule[0].t, schedule[0].a);
      RunKeeps(c, Next(c, s, schedule[0].t, schedule[0].a), schedule[1..], s');
    }
  }

  /**
   In every state reachable by any interleaving of any number of threads:
   an object a thread got from SOM_reserve and has not given up is not
   destroyed, nor is one that is still published; no object is destroyed twice;
   a retired object that is not destroyed is on the list of its retiring thread,
   so a later scan can still free it; and no access is out of bounds.
   */
  lemma SafeReclamation(c: Config, s: State, schedule: seq<Event>, s': State)
    requires Init(s) && Runs(c, s, schedule, s') && UnlappedAlong(c, s, schedule)
    ensures forall t :: 0 <= t < |s'.threads| && s'.threads[t].held.Some? ==>
              s'.threads[t].held.value.obj in s'.objs && s'.threads[t].held.value.obj !in s'.destroyed
    ensures forall r :: r in s'.refs && s'.refs[r].Some? ==> s'.refs[r].value !in s'.destroyed
    ensures NoDup(s'.destroyed)
    ensures forall o :: o in s'.died ==>
              o in s'.destroyed || exists t :: 0 <= t < |s'.threads| && o in s'.threads[t].retired
    ensures forall t :: 0 <= t < |s'.threads| ==> Fits(s', t)
  {
    RunKeeps(c, s, schedule, s');
    forall t | 0 <= t < |s'.threads| && s'.threads[t].held.Some?
      ensures s'.threads[t].held.value.obj in s'.objs && s'.threads[t].held.value.obj !in s'.destroyed
    {
      var h := s'.threads[t].held.value;
      assert Guards(s', t, h.obj, h.at);
      assert ObjOk(s', h.obj);
    }
    forall r | r in s'.refs && s'.refs[r].Some? ensures s'.refs[r].value !in s'.destroyed {
      assert RefOk(s', r) && ObjOk(s', s'.refs[r].value);
    }
    forall o | o in s'.died
      ensures o in s'.destroyed || exists t :: 0 <= t < |s'.threads| && o in s'.threads[t].retired
    {
      assert ObjOk(s', o);
    }
    forall t | 0 <= t < |s'.threads| ensures Fits(s', t) { assert ThreadOk(s', t); }
  }
}
