/**
 The reservation words of a shared dictionary (dictionary.c): one for each root
 bucket, taken by readers in `get` and by writers in `set` and `removeAll`.

 Any number of threads run interleaved, one step for each atomic operation. A weak
 exchange may fail for no reason.
 */
module BucketLock {
  const HT8_SIZE: nat := 256

  /** Where a thread is, and for which bucket; `res` is what it believes the word to be. */
  datatype Pc =
    | Away
    | Load(b: nat)
    | TryRead(b: nat, res: int)
    | Reading(b: nat)
    | TryWrite(b: nat)
    | Writing(b: nat)

  datatype State = State(words: seq<int>, threads: seq<Pc>)

  datatype Action = StartRead(t: nat, b: nat) | StartWrite(t: nat, b: nat) | Step(t: nat, spurious: bool)

  predicate Enabled(s: State, a: Action) {
    a.t < |s.threads| && match a
      case StartRead(t, b) => s.threads[t].Away? && b < HT8_SIZE
      case StartWrite(t, b) => s.threads[t].Away? && b < HT8_SIZE
      case Step(t, _) => !s.threads[t].Away? && s.threads[t].b < |s.words|
  }

  function At(s: State, t: nat, pc: Pc): State
    requires t < |s.threads|
  {
    s.(threads := s.threads[t := pc])
  }

  function With(s: State, b: nat, word: int): State
    requires b < |s.words|
  {
    s.(words := s.words[b := word])
  }

  /** One atomic operation of a thread. */
  function DoStep(s: State, t: nat, spurious: bool): State
    requires Enabled(s, Step(t, spurious))
  {
    var pc := s.threads[t];
    var word := s.words[pc.b];
    match pc
    case Load(b) => At(s, t, if word >= 0 then TryRead(b, word) else Load(b))
    case TryRead(b, res) =>
      if word == res then With(At(s, t, Reading(b)), b, res + 1)
      else At(s, t, if word >= 0 then TryRead(b, word) else Load(b))
    case Reading(b) => With(At(s, t, Away), b, word - 1)
    case TryWrite(b) => if word == 0 && !spurious then With(At(s, t, Writing(b)), b, -1) else s
    case Writing(b) => With(At(s, t, Away), b, 0)
  }

  function Next(s: State, a: Action): State
    requires Enabled(s, a)
  {
    match a
    case StartRead(t, b) => At(s, t, Load(b))
    case StartWrite(t, b) => At(s, t, TryWrite(b))
    case Step(t, spurious) => DoStep(s, t, spurious)
  }

  predicate Init(s: State) {
    s.words == seq(HT8_SIZE, _ => 0) && forall t :: 0 <= t < |s.threads| ==> s.threads[t] == Away
  }

  predicate Runs(s: State, schedule: seq<Action>, s': State)
    decreases |schedule|
  {
    if schedule == [] then s == s'
    else Enabled(s, schedule[0]) && Runs(Next(s, schedule[0]), schedule[1..], s')
  }

  /** How many threads are at `pc`. */
  function Count(threads: seq<Pc>, pc: Pc): nat {
    multiset(threads)[pc]
  }

  lemma CountMove(threads: seq<Pc>, t: nat, to: Pc, pc: Pc)
    requires t < |threads|
    ensures Count(threads[t := to], pc) ==
            Count(threads, pc) - (if threads[t] == pc then 1 else 0) + (if to == pc then 1 else 0)
  {
    assert threads == threads[..t] + [threads[t]] + threads[t + 1..];
    assert threads[t := to] == threads[..t] + [to] + threads[t + 1..];
  }

  /** The word of bucket `b` is -1 with one writer and no reader inside, and else the number of readers inside. */
  ghost predicate BucketOk(s: State, b: nat)
    requires b < |s.words|
  {
    var readers, writers := Count(s.threads, Reading(b)), Count(s.threads, Writing(b));
    if s.words[b] == -1 then writers == 1 && readers == 0 else writers == 0 && s.words[b] == readers
  }

  ghost predicate Inv(s: State) {
    && |s.words| == HT8_SIZE
    && (forall b :: 0 <= b < HT8_SIZE ==> BucketOk(s, b))
    && (forall t :: 0 <= t < |s.threads| ==> s.threads[t].TryRead? ==> s.threads[t].res >= 0)
    && (forall t :: 0 <= t < |s.threads| && !s.threads[t].Away? ==> s.threads[t].b < HT8_SIZE)
  }

  lemma InitInv(s: State)
    requires Init(s)
    ensures Inv(s)
  {
    forall pc: Pc | pc != Away ensures Count(s.threads, pc) == 0 {
      assert pc !in s.threads;
    }
  }

  lemma StepKeeps(s: State, a: Action)
    requires Inv(s) && Enabled(s, a)
    ensures Inv(Next(s, a))
  {
    hide BucketOk;
    forall b: nat | b < HT8_SIZE ensures BucketOk(Next(s, a), b) {
      assert BucketOk(s, b);
      BucketKept(s, a, b);
    }
  }

  lemma BucketKept(s: State, a: Action, b: nat)
    requires Inv(s) && Enabled(s, a) && b < HT8_SIZE
    ensures BucketOk(Next(s, a), b)
  {
    hide Count;
    var s', t := Next(s, a), a.t;
    assert BucketOk(s, b);
    MemberCounts(s.threads, t);
    CountMove(s.threads, t, s'.threads[t], Reading(b));
    CountMove(s.threads, t, s'.threads[t], Writing(b));
    assert s'.threads == s.threads[t := s'.threads[t]];
  }

  lemma MemberCounts(threads: seq<Pc>, t: nat)
    requires t < |threads|
    ensures Count(threads, threads[t]) >= 1
  {
    assert threads[t] in threads;
  }

  /**
   In every run, each word is -1 exactly when one writer and no reader is inside its
   bucket, and otherwise the number of readers inside.
   */
  lemma {:induction false} WordsAreRight(s: State, schedule: seq<Action>, s': State)
    requires Inv(s) && Runs(s, schedule, s')
    ensures Inv(s')
    decreases |schedule|
  {
    if schedule != [] {
      StepKeeps(s, schedule[0]);
      WordsAreRight(Next(s, schedule[0]), schedule[1..], s');
    }
  }

  /** So a writer is alone in its bucket, in every run from the start. */
  lemma WriterIsAlone(s: State, schedule: seq<Action>, s': State, t: nat, u: nat, b: nat)
    requires Init(s) && Runs(s, schedule, s')
    requires t < |s'.threads| && u < |s'.threads| && t != u && s'.threads[t] == Writing(b)
    ensures s'.threads[u] != Writing(b) && s'.threads[u] != Reading(b)
  {
    InitInv(s);
    WordsAreRight(s, schedule, s');
    assert BucketOk(s', b);
    MemberCounts(s'.threads, t);
    var rest := s'.threads[t := Away];
    CountMove(s'.threads, t, Away, Writing(b));
    MemberCounts(rest, u);
    MemberCounts(s'.threads, u);
  }

  // ----- Who is where -----

  /** The last call of thread `t`, and its bucket. */
  datatype Call = NoCall | ReadCall(b: nat) | WriteCall(b: nat)

  function LastCall(schedule: seq<Action>, t: nat): Call {
    if schedule == [] then NoCall
    else
      var a := schedule[|schedule| - 1];
      if a.t == t && a.StartRead? then ReadCall(a.b)
      else if a.t == t && a.StartWrite? then WriteCall(a.b)
      else LastCall(schedule[..|schedule| - 1], t)
  }

  predicate Serves(pc: Pc, call: Call) {
    match pc
    case Away => true
    case Load(b) => call == ReadCall(b)
    case TryRead(b, _) => call == ReadCall(b)
    case Reading(b) => call == ReadCall(b)
    case TryWrite(b) => call == WriteCall(b)
    case Writing(b) => call == WriteCall(b)
  }

  lemma {:induction false} RunsSplit(s: State, schedule: seq<Action>, s': State) returns (mid: State)
    requires schedule != [] && Runs(s, schedule, s')
    ensures var n := |schedule| - 1;
            Runs(s, schedule[..n], mid) && Enabled(mid, schedule[n]) && s' == Next(mid, schedule[n])
    decreases |schedule|
  {
    var n := |schedule| - 1;
    if n == 0 {
      mid := s;
    } else {
      mid := RunsSplit(Next(s, schedule[0]), schedule[1..], s');
      assert schedule[1..][..n - 1] == schedule[..n][1..];
    }
  }

  /** In every run a thread waits for the bucket of its last call, or is inside it, in the way it asked for. */
  lemma {:induction false} ServesLastCall(s: State, schedule: seq<Action>, s': State, t: nat)
    requires Init(s) && Runs(s, schedule, s') && t < |s'.threads|
    ensures |s'.threads| == |s.threads| && Serves(s'.threads[t], LastCall(schedule, t))
    decreases |schedule|
  {
    if schedule != [] {
      var mid := RunsSplit(s, schedule, s');
      ServesLastCall(s, schedule[..|schedule| - 1], mid, t);
    }
  }

  // ----- Getting in and out -----

  /** `n` steps of thread `t`, without any of the others and without exchanges that fail for no reason. */
  function Alone(t: nat, n: nat): seq<Action> {
    seq(n, _ => Step(t, false))
  }

  lemma {:induction false} RunsBoth(s: State, one: seq<Action>, mid: State, two: seq<Action>, end: State)
    requires Runs(s, one, mid) && Runs(mid, two, end)
    ensures Runs(s, one + two, end)
    decreases |one|
  {
    if one == [] {
      assert one + two == two;
    } else {
      assert (one + two)[1..] == one[1..] + two;
      RunsBoth(Next(s, one[0]), one[1..], mid, two, end);
    }
  }

  lemma Nobody(s: State, b: nat)
    requires Inv(s) && b < HT8_SIZE
    ensures s.words[b] >= 0 <==> forall u :: 0 <= u < |s.threads| ==> s.threads[u] != Writing(b)
    ensures s.words[b] == 0 <==>
            forall u :: 0 <= u < |s.threads| ==> s.threads[u] != Writing(b) && s.threads[u] != Reading(b)
  {
    assert BucketOk(s, b);
    forall pc | pc in {Reading(b), Writing(b)}
      ensures Count(s.threads, pc) == 0 <==> forall u :: 0 <= u < |s.threads| ==> s.threads[u] != pc
    {
      assert Count(s.threads, pc) == 0 <==> pc !in s.threads;
    }
  }

  /** Thread `t` can be at `pc` after `n` steps of its own. */
  ghost predicate Gets(s: State, t: nat, pc: Pc, n: nat) {
    exists s' :: Runs(s, Alone(t, n), s') && t < |s'.threads| && s'.threads[t] == pc
  }

  predicate WantsToRead(pc: Pc, b: nat) {
    pc == Load(b) || (pc.TryRead? && pc.b == b)
  }

  /** A reader gets in with at most two steps of its own, unless a writer is inside; then it waits. */
  lemma ReaderEntersIff(s: State, t: nat, b: nat)
    requires Inv(s) && t < |s.threads| && WantsToRead(s.threads[t], b)
    ensures (exists n: nat :: n <= 2 && Gets(s, t, Reading(b), n)) <==>
            forall u :: 0 <= u < |s.threads| ==> s.threads[u] != Writing(b)
    ensures (exists n: nat :: Gets(s, t, Reading(b), n)) ==> exists n: nat :: n <= 2 && Gets(s, t, Reading(b), n)
  {
    hide Runs, BucketOk;
    assert s.threads[t].b < HT8_SIZE;
    Nobody(s, b);
    if s.words[b] >= 0 {
      var n, s' := ReaderIn(s, t, b);
      assert Gets(s, t, Reading(b), n);
    } else {
      forall n: nat ensures !Gets(s, t, Reading(b), n) {
        forall s' | Runs(s, Alone(t, n), s') && t < |s'.threads| ensures s'.threads[t] != Reading(b) {
          ReaderWaits(s, t, b, n, s');
        }
      }
    }
  }

  lemma ReaderIn(s: State, t: nat, b: nat) returns (n: nat, s': State)
    requires t < |s.threads| && b < |s.words| && s.words[b] >= 0
    requires WantsToRead(s.threads[t], b)
    ensures n <= 2 && Runs(s, Alone(t, n), s') && s'.threads == s.threads[t := Reading(b)]
    ensures s'.words == s.words[b := s.words[b] + 1]
  {
    var a := Step(t, false);
    var s1 := Next(s, a);
    assert Alone(t, 1)[1..] == [] && Alone(t, 2)[1..] == Alone(t, 1);
    if s1.threads[t].Reading? {
      n, s' := 1, s1;
    } else {
      n, s' := 2, Next(s1, a);
      assert Runs(s1, Alone(t, 1), s');
      assert s'.threads == s.threads[t := Reading(b)];
    }
  }

  lemma {:induction false} ReaderWaits(s: State, t: nat, b: nat, n: nat, s': State)
    requires t < |s.threads| && b < |s.words| && s.words[b] < 0 && Runs(s, Alone(t, n), s')
    requires WantsToRead(s.threads[t], b) && (s.threads[t].TryRead? ==> s.threads[t].res >= 0)
    ensures t < |s'.threads| && s'.threads[t] != Reading(b)
    decreases n
  {
    if n > 0 {
      assert Alone(t, n)[1..] == Alone(t, n - 1);
      ReaderWaits(Next(s, Step(t, false)), t, b, n - 1, s');
    }
  }

  /** A writer's exchange gets it in unless anybody is inside; then it changes nothing. */
  lemma WriterEntersIff(s: State, t: nat, b: nat)
    requires Inv(s) && t < |s.threads| && s.threads[t] == TryWrite(b)
    ensures Next(s, Step(t, false)).threads[t] == Writing(b) <==>
            forall u :: 0 <= u < |s.threads| ==> s.threads[u] != Writing(b) && s.threads[u] != Reading(b)
    ensures Next(s, Step(t, false)).threads[t] != Writing(b) ==> Next(s, Step(t, false)) == s
  {
    Nobody(s, b);
  }

  predicate Inside(pc: Pc) {
    pc.Reading? || pc.Writing?
  }

  /** A thread that is inside, or waits while nobody is inside anywhere, can finish its call alone. */
  lemma CallEnds(s: State, t: nat) returns (schedule: seq<Action>, s': State)
    requires Inv(s) && t < |s.threads| && !s.threads[t].Away?
    requires Inside(s.threads[t]) || forall u :: 0 <= u < |s.threads| ==> !Inside(s.threads[u])
    ensures Runs(s, schedule, s') && s'.threads == s.threads[t := Away] && Inv(s')
  {
    var b, a := s.threads[t].b, Step(t, false);
    var mid, front := s, [];
    if !Inside(s.threads[t]) {
      Nobody(s, b);
      if s.threads[t].TryWrite? {
        mid, front := Next(s, a), [a];
        assert [a][1..] == [];
      } else {
        var n, s1 := ReaderIn(s, t, b);
        mid, front := s1, Alone(t, n);
      }
      WordsAreRight(s, front, mid);
    }
    s' := Next(mid, a);
    assert [a][1..] == [] && Runs(mid, [a], s');
    schedule := front + [a];
    RunsBoth(s, front, mid, [a], s');
    StepKeeps(mid, a);
  }

  /** No run gets stuck: every call can end, and then all words are zero again. */
  lemma {:induction false} AllCallsEnd(s: State) returns (schedule: seq<Action>, s': State)
    requires Inv(s)
    ensures Runs(s, schedule, s') && s'.words == seq(HT8_SIZE, _ => 0)
    ensures |s'.threads| == |s.threads| && forall t :: 0 <= t < |s'.threads| ==> s'.threads[t] == Away
    decreases |s.threads| - Count(s.threads, Away)
  {
    if t :| 0 <= t < |s.threads| && Inside(s.threads[t]) {
      var one, mid := CallEnds(s, t);
      CountMove(s.threads, t, Away, Away);
      MemberCounts(s.threads, t);
      CountBounded(mid.threads, Away);
      var two, end := AllCallsEnd(mid);
      schedule, s' := one + two, end;
      RunsBoth(s, one, mid, two, end);
    } else if t :| 0 <= t < |s.threads| && !s.threads[t].Away? {
      var one, mid := CallEnds(s, t);
      CountMove(s.threads, t, Away, Away);
      CountBounded(mid.threads, Away);
      var two, end := AllCallsEnd(mid);
      schedule, s' := one + two, end;
      RunsBoth(s, one, mid, two, end);
    } else {
      schedule, s' := [], s;
      forall b: nat | b < HT8_SIZE ensures s.words[b] == 0 { Nobody(s, b); }
    }
  }

  lemma CountBounded(threads: seq<Pc>, pc: Pc)
    ensures Count(threads, pc) <= |threads|
  {
    assert multiset(threads) - multiset(threads)[pc := 0] <= multiset(threads);
  }
}
