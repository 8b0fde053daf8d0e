/**
 What a lap of the 32-bit epoch counter does to reclamation (sharedobj.c): both
 halves of `Unlapped` are exact. For every life and for every gap between the loads
 of a reservation that they exclude, there is a run, legal in every other respect,
 that ends with a thread holding a destroyed object.
 */
module SharedObjLaps {
  import opened Common
  import opened SharedObj

  /** Every creation advances the epoch, every retirement scans. */
  const EAGER := Config(1, 1)

  /** The slots of reservations are not initialised; `x` is what they happen to hold. */
  function Start(x: nat): State {
    State(0, [x, x], [], map[0 := None], map[], [], map[], map[], map[])
  }

  ghost predicate Reaches(s: State, s': State) {
    exists schedule :: Runs(EAGER, s, schedule, s')
  }

  ghost predicate HoldsDestroyed(s: State, t: nat) {
    t < |s.threads| && s.threads[t].held.Some? && s.threads[t].held.value.obj in s.destroyed
  }

  lemma {:induction false} Appended(s: State, one: seq<Event>, mid: State, two: seq<Event>, end: State)
    requires Runs(EAGER, s, one, mid) && Runs(EAGER, mid, two, end)
    ensures Runs(EAGER, s, one + two, end)
    decreases |one|
  {
    if one == [] {
      assert one + two == two;
    } else {
      assert (one + two)[1..] == one[1..] + two;
      Appended(Next(EAGER, s, one[0].t, one[0].a), one[1..], mid, two, end);
    }
  }

  /** Reach `mid`, then let thread `t` take one more step. */
  lemma Then(s: State, mid: State, t: nat, a: Action) returns (s': State)
    requires Reaches(s, mid) && Enabled(mid, t, a)
    ensures s' == Next(EAGER, mid, t, a) && Reaches(s, s')
  {
    s' := Next(EAGER, mid, t, a);
    var one :| Runs(EAGER, s, one, mid);
    var two := [Event(t, a)];
    assert two[1..] == [];
    assert Runs(EAGER, s', two[1..], s');
    Appended(s, one, mid, two, s');
  }

  lemma Here(s: State)
    ensures Reaches(s, s)
  {
    assert Runs(EAGER, s, [], s);
  }

  /** Thread `t` can let `n` epochs pass by creating objects it never publishes. */
  lemma {:induction false} EpochsPass(s0: State, s: State, t: nat, base: ObjId, n: nat) returns (s': State)
    requires Reaches(s0, s)
    requires t < |s.threads| && s.threads[t].pc.Idle? && s.threads[t].ncreated == 0
    requires s.born.Keys == s.objs.Keys && forall o :: o in s.objs ==> o < base
    ensures Reaches(s0, s') && s'.epoch == s.epoch + n
    ensures s'.threads == s.threads && s'.res == s.res && s'.refs == s.refs && s'.destroyed == s.destroyed
    ensures s'.born.Keys == s'.objs.Keys
    ensures forall o :: o in s.objs ==> o in s'.objs && s'.objs[o] == s.objs[o] && s'.born[o] == s.born[o]
    ensures s'.died == s.died && forall o :: o in s'.objs ==> o < base + n
  {
    if n == 0 {
      s' := s;
    } else {
      var mid := EpochsPass(s0, s, t, base, n - 1);
      s' := Then(s0, mid, t, Create(base + n - 1));
      assert s'.threads[t] == mid.threads[t];
    }
  }

  /** Two threads; thread 1 has created in full epochs and retires into `list`. */
  function Two(pc0: Pc, held0: Option<Hold>, pc1: Pc, list: seq<ObjId>): seq<Thread> {
    [Thread(pc0, held0, 0, 0, []), Thread(pc1, None, 0, 0, list)]
  }

  lemma Registered(x: nat) returns (s: State)
    ensures Reaches(Start(x), s) && s == Start(x).(threads := Two(Idle, None, Idle, []))
  {
    Here(Start(x));
    s := Then(Start(x), Start(x), 0, Register);
    s := Then(Start(x), s, 0, Register);
  }

  /** Thread 1 creates object `o` and publishes it in reference 0. */
  lemma PublishedBy1(s0: State, s: State, o: ObjId, pc0: Pc) returns (s': State)
    requires Reaches(s0, s) && s.threads == Two(pc0, None, Idle, []) && s.refs == map[0 := None] && o !in s.objs
    ensures Reaches(s0, s') && s'.threads == s.threads && s'.res == s.res && s'.refs == map[0 := Some(o)]
    ensures s'.epoch == s.epoch + 1 && s'.objs.Keys == s.objs.Keys + {o} && s'.objs[o].created == Word(s.epoch)
    ensures s'.born == s.born[o := s.epoch] && s'.died == s.died
  {
    s' := Then(s0, s, 1, Create(o));
    assert s'.threads == s.threads;
    s' := Then(s0, s', 1, Swap(0, Some(o)));
    assert s'.threads == s.threads;
  }

  /** Thread 1 unpublishes `o`, retires it and starts its scan. */
  lemma RetiredBy1(s0: State, s: State, o: ObjId, pc0: Pc, held0: Option<Hold>) returns (s': State)
    requires Reaches(s0, s)
    requires s.threads == Two(pc0, held0, Idle, []) && |s.res| == 2 && s.refs == map[0 := Some(o)] && o in s.objs
    ensures Reaches(s0, s') && s'.threads == Two(pc0, held0, Scan(2, 0, 0), [o])
    ensures s'.res == s.res && s'.epoch == s.epoch && s'.born == s.born && s'.died == s.died[o := s.epoch]
    ensures s'.objs == s.objs[o := s.objs[o].(retired := Word(s.epoch))]
  {
    s' := Then(s0, s, 1, Swap(0, None));
    s' := Then(s0, s', 1, Advance);
    assert s'.threads == Two(pc0, held0, RetireStore(o, s.epoch), []);
    s' := Then(s0, s', 1, Advance);
    assert [o] + [] == [o];
    assert s'.threads == Two(pc0, held0, ScanStart, [o]);
    s' := Then(s0, s', 1, Advance);
    assert s'.threads == Two(pc0, held0, Scan(2, 0, 0), [o]);
  }

  /** Thread 1 retires `o`; if neither slot answers its scan, `o` is destroyed. */
  lemma Unseen(s0: State, s: State, o: ObjId, pc0: Pc, held0: Option<Hold>) returns (s': State)
    requires Reaches(s0, s)
    requires s.threads == Two(pc0, held0, Idle, []) && |s.res| == 2 && s.refs == map[0 := Some(o)] && o in s.objs
    requires forall k :: 0 <= k < 2 ==> !Conflicts(s.objs[o].created, Word(s.epoch), s.res[k])
    ensures Reaches(s0, s')
    ensures s'.threads == s.threads && s'.res == s.res && s'.epoch == s.epoch
    ensures s'.born == s.born && s'.died == s.died[o := s.epoch]
    ensures o in s'.destroyed && s'.objs.Keys == s.objs.Keys
  {
    s' := RetiredBy1(s0, s, o, pc0, held0);
    s' := Then(s0, s', 1, Advance);
    assert s'.threads == Two(pc0, held0, Scan(2, 0, 1), [o]);
    s' := Then(s0, s', 1, Advance);
    assert s'.threads == Two(pc0, held0, Scan(2, 0, 2), [o]);
    s' := Then(s0, s', 1, Advance);
    assert [o][..0] + [o][1..] == [];
    assert s'.threads == Two(pc0, held0, Scan(2, 0, 0), []);
    s' := Then(s0, s', 1, Advance);
    assert s'.threads == s.threads;
  }

  /** Thread 0 reserves object `o`, while no epoch passes. */
  lemma ReservedBy0(s0: State, s: State, o: ObjId) returns (s': State)
    requires Reaches(s0, s) && s.threads == Two(Idle, None, Idle, []) && |s.res| == 2 && s.refs == map[0 := Some(o)]
    ensures Reaches(s0, s') && s'.threads == Two(Idle, Some(Hold(o, s.epoch)), Idle, [])
    ensures s'.res == [Word(s.epoch), s.res[1]] && s'.refs == s.refs && s'.epoch == s.epoch
    ensures s'.objs == s.objs && s'.born == s.born && s'.died == s.died && s'.destroyed == s.destroyed
  {
    var at := s.epoch;
    s' := Then(s0, s, 0, Reserve(0));
    assert s'.threads == Two(ReserveEpoch(0), None, Idle, []);
    s' := Then(s0, s', 0, Advance);
    assert s'.threads == Two(ReserveStore(0, at), None, Idle, []);
    s' := Then(s0, s', 0, Advance);
    assert s'.threads == Two(ReserveLoad(0, at), None, Idle, []);
    s' := CheckedBy0(s0, s', o, at);
  }

  lemma CheckedBy0(s0: State, s: State, o: ObjId, at: nat) returns (s': State)
    requires Reaches(s0, s) && s.threads == Two(ReserveLoad(0, at), None, Idle, []) && s.epoch == at
    requires |s.res| == 2 && s.refs == map[0 := Some(o)]
    ensures Reaches(s0, s') && s' == s.(threads := Two(Idle, Some(Hold(o, at)), Idle, []))
  {
    s' := Then(s0, s, 0, Advance);
    assert s'.threads == Two(ReserveCheck(0, at, Some(o)), None, Idle, []);
    s' := Then(s0, s', 0, Advance);
    assert s'.threads == Two(Idle, Some(Hold(o, at)), Idle, []);
  }

  /**
   For every life that `LifeOk` excludes, an object of that life can be destroyed
   under a reader: a reservation at a well-chosen epoch in between is not seen.
   */
  lemma LongLifeLosesProtection(life: nat)
    requires !LifeOk(life)
    ensures exists x, s :: Reaches(Start(x), s) && HoldsDestroyed(s, 0)
                           && s.died.Keys == {0} && 0 in s.born && s.died[0] == s.born[0] + life
  {
    var e := Word(life) + 1;
    var s0 := Start(e);
    NotOneShort(life);
    var s := Registered(e);
    s := PublishedBy1(s0, s, 0, Idle);
    s := EpochsPass(s0, s, 1, 1, e - 1);
    assert s.epoch == e && s.objs[0].created == 0;
    s := ReservedBy0(s0, s, 0);
    s := EpochsPass(s0, s, 1, e, life - e);
    assert s.epoch == life && s.res == [e, e];
    s := Unseen(s0, s, 0, Idle, Some(Hold(0, e)));
    assert HoldsDestroyed(s, 0);
  }

  lemma NotOneShort(life: nat)
    requires !LifeOk(life)
    ensures Word(life) + 1 < WORD && Word(Word(life) + 1) == Word(life) + 1 <= life
  {}

  /** Thread 0 publishes epoch 0 and reads object 1, which thread 1 created in epoch 1. */
  lemma ReadBetweenLoads(s0: State) returns (s: State)
    requires s0 == Start(7)
    ensures Reaches(s0, s) && s.threads == Two(ReserveCheck(0, 0, Some(1)), None, Idle, []) && s.res == [0, 7]
    ensures s.refs == map[0 := Some(1)] && s.objs.Keys == s.born.Keys == {0, 1} && s.objs[1].created == 1
    ensures s.epoch == 2 && s.born[1] == 1 && s.died == map[]
  {
    s := Registered(7);
    s := Then(s0, s, 0, Reserve(0));
    s := Then(s0, s, 0, Advance);
    s := Then(s0, s, 0, Advance);
    assert s.threads == Two(ReserveLoad(0, 0), None, Idle, []);
    s := Then(s0, s, 1, Create(0));
    assert s.threads == Two(ReserveLoad(0, 0), None, Idle, []);
    s := PublishedBy1(s0, s, 1, ReserveLoad(0, 0));
    s := Then(s0, s, 0, Advance);
  }

  /**
   For every gap that `RoundOk` excludes: if so many epochs pass between the two
   epoch loads of SOM_reserve, the second sees the first one's word again, and the
   object read in between may be long destroyed, however short its life was.
   */
  lemma LappedReserveLosesProtection(gap: nat)
    requires gap > 0 && gap % WORD == 0
    ensures exists mid, s ::
              && Reaches(Start(7), mid) && |mid.threads| == 2 && mid.threads[0].pc.ReserveCheck?
              && mid.epoch - mid.threads[0].pc.at == gap && Enabled(mid, 0, Advance)
              && s == Next(EAGER, mid, 0, Advance) && Reaches(Start(7), s) && HoldsDestroyed(s, 0)
              && (forall o :: o in s.died && o in s.born ==> s.died[o] == s.born[o] + 1)
  {
    var s0 := Start(7);
    var mid := ReadBetweenLoads(s0);
    mid := Unseen(s0, mid, 1, ReserveCheck(0, 0, Some(1)), None);
    mid := EpochsPass(s0, mid, 1, 2, gap - 2);
    assert Word(mid.epoch) == 0;
    var s := Then(s0, mid, 0, Advance);
    assert HoldsDestroyed(s, 0);
  }
}
