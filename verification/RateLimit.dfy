/**
 The sliding-window rate limiter (ratelimit.c): per key and limit, a ring of
 counters addressed by 16-bit slot numbers, compared with a plain log of the slots
 of all accepted checks.
 */
module RateLimit {
  import opened Common
  import opened Arithmetic

  const MAXCOUNTS := 512
  const LAP: int := 0x1_0000

  /** The value of a uint16_t. */
  function U16(n: int): (w: nat)
    ensures w < LAP
  {
    n % LAP
  }

  datatype Limit = Limit(seconds: nat, limit: nat, res: nat, ncounts: nat)

  datatype Entry = Entry(last: nat, total: nat, countpos: nat, counts: seq<nat>)

  predicate LimitOk(l: Limit) {
    && 1 <= l.limit < LAP && l.res >= 1 && 1 <= l.ncounts <= MAXCOUNTS
  }

  /**
   PSC_RateLimitOpts_addLimit: at most 512 counters cover the whole window, with
   no counter to spare, each for as few seconds as 512 counters allow; so a window
   of more than 256 seconds uses more than half of them, and a second is resolved
   in every window of up to 512 seconds.
   */
  function AddLimit(seconds: int, limit: int): (r: Option<Limit>)
    ensures r.None? <==> seconds < 1 || seconds > 0xffff || limit < 1 || limit > 0xffff
    ensures r.Some? ==>
              && LimitOk(r.value) && r.value.seconds == seconds && r.value.limit == limit
              && r.value.ncounts * r.value.res >= seconds > (r.value.ncounts - 1) * r.value.res
              && (seconds > 256 ==> r.value.ncounts > 256)
              && (forall r' :: 1 <= r' < r.value.res ==> MAXCOUNTS * r' < seconds)
  {
    if seconds < 1 || seconds > 0xffff || limit < 1 || limit > 0xffff then None
    else
      var res := (seconds + MAXCOUNTS - 1) / MAXCOUNTS;
      var ncounts := (seconds + res - 1) / res;
      CountersCover(seconds, res, ncounts);
      Some(Limit(seconds, limit, res, ncounts))
  }

  lemma CountersCover(seconds: int, res: int, ncounts: int)
    requires 1 <= seconds <= 0xffff
    requires res == (seconds + MAXCOUNTS - 1) / MAXCOUNTS && res >= 1 && ncounts == (seconds + res - 1) / res
    ensures 1 <= ncounts <= MAXCOUNTS
    ensures ncounts * res >= seconds > (ncounts - 1) * res
    ensures seconds > 256 ==> ncounts > 256
    ensures forall r :: 1 <= r < res ==> MAXCOUNTS * r < seconds
  {
    var rest := (seconds + res - 1) % res;
    assert seconds + res - 1 == ncounts * res + rest;
    assert (ncounts - 1) * res == ncounts * res - res;
    if ncounts > MAXCOUNTS { Below(MAXCOUNTS, ncounts - 1, res); }
    if seconds > 256 && ncounts <= 256 { Below(ncounts, 256, res); }
  }

  // ----- The reference: a log of accepted slots -----

  /** How many logged checks fall into one slot. */
  function CountAt(log: seq<nat>, slot: int): nat {
    if log == [] then 0 else (if log[|log| - 1] == slot then 1 else 0) + CountAt(log[..|log| - 1], slot)
  }

  /** The same, `j` slots before `slot`. */
  function Ago(log: seq<nat>, slot: int, j: nat): nat {
    CountAt(log, slot - j)
  }

  /** How many logged checks fall into the last `n` slots up to `slot`. */
  function InWindow(log: seq<nat>, slot: int, n: nat): nat {
    if log == [] then 0
    else (if slot - n < log[|log| - 1] <= slot then 1 else 0) + InWindow(log[..|log| - 1], slot, n)
  }

  predicate UpTo(log: seq<nat>, slot: int) {
    forall k :: 0 <= k < |log| ==> log[k] <= slot
  }

  lemma {:induction false} NoneAfter(log: seq<nat>, slot: int)
    requires UpTo(log, slot - 1)
    ensures CountAt(log, slot) == 0
  {
    if log != [] { NoneAfter(log[..|log| - 1], slot); }
  }

  lemma {:induction false} WindowMoves(log: seq<nat>, slot: int, n: nat)
    requires UpTo(log, slot) && n >= 1
    ensures InWindow(log, slot + 1, n) + CountAt(log, slot + 1 - n) == InWindow(log, slot, n)
  {
    if log != [] { WindowMoves(log[..|log| - 1], slot, n); }
  }

  lemma {:induction false} WindowEmpty(log: seq<nat>, slot: int, n: nat)
    requires UpTo(log, slot - n)
    ensures InWindow(log, slot, n) == 0
  {
    if log != [] { WindowEmpty(log[..|log| - 1], slot, n); }
  }

  lemma {:induction false} WindowHoldsSlots(log: seq<nat>, slot: int, n: nat, j: nat)
    requires j < n
    ensures Ago(log, slot, j) <= InWindow(log, slot, n)
  {
    if log != [] { WindowHoldsSlots(log[..|log| - 1], slot, n, j); }
  }

  lemma {:induction false} WindowStaysEmpty(log: seq<nat>, slot: int, n: nat, g: nat)
    requires UpTo(log, slot) && InWindow(log, slot, n) == 0
    ensures InWindow(log, slot + g, n) == 0
  {
    if log != [] {
      assert InWindow(log[..|log| - 1], slot, n) == 0;
      WindowStaysEmpty(log[..|log| - 1], slot, n, g);
    }
  }

  /** Over the `n` slots up to `slot`. */
  function SumOfSlots(log: seq<nat>, slot: int, n: nat): nat {
    if n == 0 then 0 else SumOfSlots(log, slot, n - 1) + Ago(log, slot, n - 1)
  }

  /** What lies in a window is the sum over its slots. */
  lemma {:induction false} WindowIsSum(log: seq<nat>, slot: int, n: nat)
    ensures InWindow(log, slot, n) == SumOfSlots(log, slot, n)
  {
    if n == 0 {
      EmptyWindow(log, slot);
    } else {
      WindowIsSum(log, slot, n - 1);
      OneMoreSlot(log, slot, n);
    }
  }

  lemma {:induction false} EmptyWindow(log: seq<nat>, slot: int)
    ensures InWindow(log, slot, 0) == 0
  {
    if log != [] { EmptyWindow(log[..|log| - 1], slot); }
  }

  lemma {:induction false} OneMoreSlot(log: seq<nat>, slot: int, n: nat)
    requires n > 0
    ensures InWindow(log, slot, n) == InWindow(log, slot, n - 1) + Ago(log, slot, n - 1)
  {
    if log != [] { OneMoreSlot(log[..|log| - 1], slot, n); }
  }

  // ----- The ring of counters -----

  /** Where the counter of `j` slots ago is. */
  function Back(pos: nat, j: nat, n: nat): nat
    requires pos < n && j < n
  {
    if j <= pos then pos - j else pos + n - j
  }

  /** The ring holds, for each slot of the window ending at `slot`, how many checks were accepted in it. */
  predicate Represents(l: Limit, e: Entry, log: seq<nat>, slot: nat) {
    && LimitOk(l) && |e.counts| == MAXCOUNTS && e.countpos < l.ncounts
    && e.last == U16(slot) && UpTo(log, slot)
    && e.total == InWindow(log, slot, l.ncounts) <= l.limit
    && forall j: nat :: j < l.ncounts ==> e.counts[Back(e.countpos, j, l.ncounts)] == Ago(log, slot, j)
  }

  /** The counters of a ring that are in use, from the present one back. */
  function SumOfCounts(e: Entry, n: nat, k: nat): nat
    requires k <= n <= |e.counts| && e.countpos < n
  {
    if k == 0 then 0 else SumOfCounts(e, n, k - 1) + e.counts[Back(e.countpos, k - 1, n)]
  }

  /** The total is the sum of the counters. */
  lemma TotalIsSum(l: Limit, e: Entry, log: seq<nat>, slot: nat)
    requires Represents(l, e, log, slot)
    ensures e.total == SumOfCounts(e, l.ncounts, l.ncounts)
  {
    WindowIsSum(log, slot, l.ncounts);
    CountsAreSlots(l, e, log, slot, l.ncounts);
  }

  lemma {:induction false} CountsAreSlots(l: Limit, e: Entry, log: seq<nat>, slot: nat, k: nat)
    requires Represents(l, e, log, slot) && k <= l.ncounts
    ensures SumOfCounts(e, l.ncounts, k) == SumOfSlots(log, slot, k)
  {
    if k > 0 { CountsAreSlots(l, e, log, slot, k - 1); }
  }

  function Fresh(last: nat): Entry {
    Entry(last, 0, 0, seq(MAXCOUNTS, _ => 0))
  }

  lemma FreshRepresents(l: Limit, log: seq<nat>, slot: nat)
    requires LimitOk(l) && UpTo(log, slot - l.ncounts)
    ensures Represents(l, Fresh(U16(slot)), log, slot)
  {
    WindowEmpty(log, slot, l.ncounts);
    forall j: nat | j < l.ncounts ensures Ago(log, slot, j) == 0 { WindowHoldsSlots(log, slot, l.ncounts, j); }
  }

  /** One turn of the aging loop. */
  function Age(l: Limit, e: Entry): Entry
    requires l.ncounts <= |e.counts| && e.countpos < l.ncounts
  {
    var pos := if e.countpos + 1 == l.ncounts then 0 else e.countpos + 1;
    Entry(U16(e.last + 1), U16(e.total - e.counts[pos]), pos, e.counts[pos := 0])
  }

  lemma AgeRepresents(l: Limit, e: Entry, log: seq<nat>, slot: nat)
    requires Represents(l, e, log, slot)
    ensures Represents(l, Age(l, e), log, slot + 1)
  {
    var n, e' := l.ncounts, Age(l, e);
    WindowMoves(log, slot, n);
    NoneAfter(log, slot + 1);
    assert Back(e.countpos, n - 1, n) == e'.countpos;
    assert e.counts[e'.countpos] == Ago(log, slot, n - 1) == CountAt(log, slot + 1 - n);
    forall j: nat | j < n ensures e'.counts[Back(e'.countpos, j, n)] == Ago(log, slot + 1, j) {
      if j > 0 {
        assert Back(e'.countpos, j, n) == Back(e.countpos, j - 1, n);
        assert Ago(log, slot + 1, j) == Ago(log, slot, j - 1);
      }
    }
  }

  lemma IdleRepresents(l: Limit, e: Entry, log: seq<nat>, slot: nat, g: nat)
    requires Represents(l, e, log, slot) && e.total == 0
    ensures Represents(l, e.(last := U16(slot + g)), log, slot + g)
  {
    WindowStaysEmpty(log, slot, l.ncounts, g);
    var later := slot + g;
    forall j: nat | j < l.ncounts ensures Ago(log, later, j) == 0 == Ago(log, slot, j) {
      WindowHoldsSlots(log, later, l.ncounts, j);
      WindowHoldsSlots(log, slot, l.ncounts, j);
    }
  }

  lemma AcceptRepresents(l: Limit, e: Entry, log: seq<nat>, slot: nat)
    requires Represents(l, e, log, slot) && e.total < l.limit
    ensures e.counts[e.countpos] < LAP - 1
    ensures Represents(l, e.(total := U16(e.total + 1),
                             counts := e.counts[e.countpos := U16(e.counts[e.countpos] + 1)]), log + [slot], slot)
  {
    var log' := log + [slot];
    assert log'[..|log'| - 1] == log;
    assert Back(e.countpos, 0, l.ncounts) == e.countpos;
    WindowHoldsSlots(log, slot, l.ncounts, 0);
    assert e.counts[e.countpos] == Ago(log, slot, 0);
    forall j: nat | 0 < j < l.ncounts
      ensures Back(e.countpos, j, l.ncounts) != e.countpos && Ago(log', slot, j) == Ago(log, slot, j)
    {}
  }

  /** The slot an entry last used at `slot` takes `now` for: the difference is only known modulo 2^16. */
  function Seen(slot: nat, now: nat): nat
    requires slot <= now
  {
    slot + (now - slot) % LAP
  }

  /** Fewer than 2^16 slots passed, or a whole window beyond the last full lap. */
  predicate Fair(slot: nat, now: nat, n: nat)
    requires slot <= now
  {
    now - slot < LAP || (now - slot) % LAP >= n
  }

  /** The slot whose window the answer is about: the true one where that makes no difference. */
  function Known(slot: nat, now: nat, n: nat): nat
    requires slot <= now
  {
    if Fair(slot, now, n) then now else Seen(slot, now)
  }

  /**
   checkLimit, against the log of the checks it accepted: it accepts exactly if
   fewer than `limit` of them lie in the last `ncounts` slots, and from then on
   again stands for the log. Unless that is fair, the current slot is taken for
   another one, as it is known modulo 2^16 only.
   */
  method CheckLimit(l: Limit, e: Entry, sec: nat, ghost log: seq<nat>, ghost slot: nat) returns (e': Entry, ok: bool)
    requires Represents(l, e, log, slot) && slot <= sec / l.res
    ensures ok <==> InWindow(log, Known(slot, sec / l.res, l.ncounts), l.ncounts) < l.limit
    ensures var now := Known(slot, sec / l.res, l.ncounts); Represents(l, e', if ok then log + [now] else log, now)
  {
    e' := AgeTo(l, e, sec, log, slot);
    ghost var now := Known(slot, sec / l.res, l.ncounts);
    ok := false;
    if e'.total < l.limit {
      AcceptRepresents(l, e', log, now);
      e' := e'.(total := U16(e'.total + 1), counts := e'.counts[e'.countpos := U16(e'.counts[e'.countpos] + 1)]);
      ok := true;
    }
  }

  /** The part of checkLimit that brings the counters up to the current slot. */
  method AgeTo(l: Limit, e: Entry, sec: nat, ghost log: seq<nat>, ghost slot: nat) returns (e': Entry)
    requires Represents(l, e, log, slot) && slot <= sec / l.res
    ensures Represents(l, e', log, Known(slot, sec / l.res, l.ncounts))
  {
    var now := U16(sec / l.res);
    ghost var seen := Seen(slot, sec / l.res);
    SeenWord(slot, sec / l.res);
    e' := e;
    if e'.total != 0 {
      if now - e'.last >= l.ncounts {
        e' := Fresh(now);
        assert UpTo(log, seen - l.ncounts);
        FreshRepresents(l, log, seen);
      } else {
        ghost var k := slot;
        while e'.last != now
          invariant slot <= k <= seen && Represents(l, e', log, k)
          decreases seen - k
        {
          AgeRepresents(l, e', log, k);
          e' := Age(l, e');
          k := k + 1;
        }
        SameWord(k, seen);
      }
    } else {
      IdleRepresents(l, e', log, slot, seen - slot);
      e' := e'.(last := now);
    }
    if Fair(slot, sec / l.res, l.ncounts) && seen != sec / l.res {
      LapRepresents(l, e', log, seen, sec / l.res);
    }
  }

  /** A counter ring for an empty window stands for any later empty window with the same slot word. */
  lemma LapRepresents(l: Limit, e: Entry, log: seq<nat>, slot: nat, now: nat)
    requires Represents(l, e, log, slot) && UpTo(log, slot - l.ncounts) && slot <= now && U16(slot) == U16(now)
    ensures Represents(l, e, log, now)
  {
    WindowEmpty(log, slot, l.ncounts);
    WindowEmpty(log, now, l.ncounts);
    forall j: nat | j < l.ncounts ensures Ago(log, now, j) == 0 == Ago(log, slot, j) {
      WindowHoldsSlots(log, now, l.ncounts, j);
      WindowHoldsSlots(log, slot, l.ncounts, j);
    }
  }

  lemma SeenWord(slot: nat, now: nat)
    requires slot <= now
    ensures U16(Seen(slot, now)) == U16(now) && Seen(slot, now) - slot < LAP
    ensures now - slot < LAP ==> Seen(slot, now) == now
    ensures U16(now) >= U16(slot) ==> Seen(slot, now) - slot == U16(now) - U16(slot)
  {}

  lemma SameWord(k: nat, seen: nat)
    requires k <= seen < k + LAP && U16(k) == U16(seen)
    ensures k == seen
  {}

  /** `k` checks accepted in one slot. */
  function Burst(slot: nat, k: nat): seq<nat> {
    seq(k, _ => slot)
  }

  lemma {:induction false} BurstInWindow(slot: nat, k: nat, now: nat, n: nat)
    requires now - n < slot <= now
    ensures InWindow(Burst(slot, k), now, n) == k
  {
    if k > 0 {
      BurstInWindow(slot, k - 1, now, n);
      assert Burst(slot, k)[..k - 1] == Burst(slot, k - 1);
    }
  }

  /**
   Whatever was accepted before, the answer at slot `now` is that of the true window,
   if and only if fewer than 2^16 slots passed since the last check at `slot`, or the
   slots passed beyond the last full lap are a whole window.
   */
  lemma RightAnswerIff(slot: nat, now: nat, n: nat, limit: nat)
    requires slot <= now && 1 <= n <= MAXCOUNTS && limit >= 1
    ensures (forall log :: UpTo(log, slot) ==>
               (InWindow(log, Seen(slot, now), n) < limit <==> InWindow(log, now, n) < limit))
            <==> Fair(slot, now, n)
  {
    SeenWord(slot, now);
    if now - slot >= LAP {
      forall log | UpTo(log, slot) ensures InWindow(log, now, n) == 0 { WindowEmpty(log, now, n); }
      if (now - slot) % LAP >= n {
        forall log | UpTo(log, slot) ensures InWindow(log, Seen(slot, now), n) == 0 {
          WindowEmpty(log, Seen(slot, now), n);
        }
      } else {
        BurstInWindow(slot, limit, Seen(slot, now), n);
        assert UpTo(Burst(slot, limit), slot);
      }
    }
  }

  /** One check per second, accepted at slot 0: at slot 2^16 the next one is refused, though the window is empty. */
  lemma LappedCheckRefused()
    ensures InWindow([0], Seen(0, LAP), 1) == 1 && InWindow([0], LAP, 1) == 0
  {
    assert [0][..0] == [];
  }

  // ----- Many keys, several limits, periodic cleanup -----

  type Key = string

  datatype Request = Request(key: Key, sec: nat)

  /** The reference limiter: accepted slots per key and limit, and the answers given. */
  datatype Naive = Naive(logs: map<Key, seq<seq<nat>>>, answers: seq<bool>)

  predicate Passes(l: Limit, log: seq<nat>, sec: nat)
    requires LimitOk(l)
  {
    InWindow(log, sec / l.res, l.ncounts) < l.limit
  }

  function Logged(l: Limit, log: seq<nat>, sec: nat): seq<nat>
    requires LimitOk(l)
  {
    if Passes(l, log, sec) then log + [sec / l.res] else log
  }

  predicate LimitsOk(limits: seq<Limit>) {
    forall i :: 0 <= i < |limits| ==> LimitOk(limits[i])
  }

  function LogsOf(logs: map<Key, seq<seq<nat>>>, n: nat, key: Key): seq<seq<nat>> {
    if key in logs then logs[key] else seq(n, _ => [])
  }

  function NaiveLogs(limits: seq<Limit>, logs: seq<seq<nat>>, sec: nat): seq<seq<nat>>
    requires LimitsOk(limits) && |logs| == |limits|
  {
    seq(|limits|, i requires 0 <= i < |limits| => Logged(limits[i], logs[i], sec))
  }

  predicate AllPass(limits: seq<Limit>, logs: seq<seq<nat>>, sec: nat)
    requires LimitsOk(limits) && |logs| == |limits|
  {
    forall i :: 0 <= i < |limits| ==> Passes(limits[i], logs[i], sec)
  }

  /** Every limit is consulted, and logs its own acceptance, whatever the others say. */
  function NaiveRun(limits: seq<Limit>, history: seq<Request>): (r: Naive)
    requires LimitsOk(limits)
    ensures |r.answers| == |history|
    ensures forall k :: k in r.logs ==> |r.logs[k]| == |limits|
  {
    if history == [] then Naive(map[], [])
    else
      var before, c := NaiveRun(limits, history[..|history| - 1]), history[|history| - 1];
      var logs := LogsOf(before.logs, |limits|, c.key);
      Naive(before.logs[c.key := NaiveLogs(limits, logs, c.sec)],
            before.answers + [AllPass(limits, logs, c.sec)])
  }

  /** When the key was last checked. */
  function LastSec(history: seq<Request>, key: Key): Option<nat> {
    if history == [] then None
    else if history[|history| - 1].key == key then Some(history[|history| - 1].sec)
    else LastSec(history[..|history| - 1], key)
  }

  /** For every limit, the time since the key's last check is fair. */
  predicate Timely(limits: seq<Limit>, history: seq<Request>, key: Key, sec: nat)
    requires LimitsOk(limits)
  {
    LastSec(history, key).Some? && LastSec(history, key).value <= sec ==>
      AllFair(limits, LastSec(history, key).value, sec)
  }

  predicate AllFair(limits: seq<Limit>, used: nat, sec: nat)
    requires LimitsOk(limits)
  {
    forall i :: 0 <= i < |limits| ==> FairSince(limits[i], used, sec)
  }

  predicate FairSince(l: Limit, used: nat, sec: nat)
    requires LimitOk(l)
  {
    used / l.res <= sec / l.res && Fair(used / l.res, sec / l.res, l.ncounts)
  }

  /** expired: every limit's window has passed the entry's last use. */
  predicate Expired(limits: seq<Limit>, es: seq<Entry>, sec: nat)
    requires LimitsOk(limits) && |es| == |limits|
  {
    forall i :: 0 <= i < |limits| ==> U16(sec / limits[i].res) - es[i].last >= limits[i].ncounts
  }

  // What entries stand for. With fair gaps it is the reference's log.

  /** A log of accepted checks, as of a slot. */
  datatype View = View(log: seq<nat>, slot: nat)

  /** The counters stand for a view; its slot has the same word as that of the key's last check, at `used`. */
  predicate ViewOk(l: Limit, e: Entry, v: View, used: nat)
    requires l.res >= 1
  {
    Represents(l, e, v.log, v.slot) && v.slot <= used / l.res && U16(v.slot) == U16(used / l.res)
  }

  predicate ViewPasses(l: Limit, v: View, sec: nat)
    requires LimitOk(l) && v.slot <= sec / l.res
  {
    InWindow(v.log, Known(v.slot, sec / l.res, l.ncounts), l.ncounts) < l.limit
  }

  function Viewed(l: Limit, v: View, sec: nat): View
    requires LimitOk(l) && v.slot <= sec / l.res
  {
    var now := Known(v.slot, sec / l.res, l.ncounts);
    View(if ViewPasses(l, v, sec) then v.log + [now] else v.log, now)
  }

  predicate InUse(limits: seq<Limit>, es: seq<Entry>, vs: seq<View>, used: nat) {
    && LimitsOk(limits) && |es| == |vs| == |limits|
    && forall i :: 0 <= i < |limits| ==> ViewOk(limits[i], es[i], vs[i], used)
  }

  /** The views are the reference's logs, as of the key's last check. */
  predicate Faithful(limits: seq<Limit>, vs: seq<View>, logs: seq<seq<nat>>, used: nat) {
    && LimitsOk(limits) && |vs| == |logs| == |limits|
    && forall i :: 0 <= i < |limits| ==> vs[i] == View(logs[i], used / limits[i].res)
  }

  lemma WordKept(l: Limit, v: View, sec: nat)
    requires LimitOk(l) && v.slot <= sec / l.res
    ensures var now := Known(v.slot, sec / l.res, l.ncounts); now <= sec / l.res && U16(now) == U16(sec / l.res)
  {
    SeenWord(v.slot, sec / l.res);
    assert (sec / l.res - v.slot) % LAP <= sec / l.res - v.slot;
  }

  /** A log without an entry has nothing left in any window from `sec` on. */
  predicate Stale(l: Limit, log: seq<nat>, sec: nat)
    requires l.res >= 1
  {
    UpTo(log, sec / l.res - l.ncounts)
  }

  predicate AllStale(limits: seq<Limit>, logs: seq<seq<nat>>, sec: nat) {
    && LimitsOk(limits) && |logs| == |limits|
    && forall i :: 0 <= i < |limits| ==> Stale(limits[i], logs[i], sec)
  }

  lemma StaleLater(limits: seq<Limit>, logs: seq<seq<nat>>, sec: nat, sec': nat)
    requires AllStale(limits, logs, sec) && sec <= sec'
    ensures AllStale(limits, logs, sec')
  {
    forall i | 0 <= i < |limits| ensures Stale(limits[i], logs[i], sec') {
      assert Stale(limits[i], logs[i], sec);
      DivMono(sec, sec', limits[i].res);
    }
  }

  lemma PassedIsStale(last: nat, log: seq<nat>, slot: nat, now: nat, n: nat)
    requires last == U16(slot) && UpTo(log, slot) && slot <= now && U16(now) - last >= n
    ensures UpTo(log, now - n)
  {
    SeenWord(slot, now);
    assert slot + n <= Seen(slot, now) <= now by {
      assert (now - slot) % LAP <= now - slot;
    }
  }

  /** No log is ahead of its key's last check. */
  predicate AllUpTo(limits: seq<Limit>, logs: seq<seq<nat>>, used: nat) {
    && LimitsOk(limits) && |logs| == |limits|
    && forall i :: 0 <= i < |limits| ==> UpTo(logs[i], used / limits[i].res)
  }

  /** An expired entry, also one that lapped, has a stale log: it can be forgotten. */
  lemma ExpiredIsStale(limits: seq<Limit>, es: seq<Entry>, vs: seq<View>, logs: seq<seq<nat>>, used: nat, sec: nat)
    requires InUse(limits, es, vs, used) && AllUpTo(limits, logs, used) && used <= sec && Expired(limits, es, sec)
    ensures AllStale(limits, logs, sec)
  {
    hide Stale, ViewOk, UpTo, U16;
    forall i | 0 <= i < |limits| ensures Stale(limits[i], logs[i], sec) {
      assert ViewOk(limits[i], es[i], vs[i], used) && UpTo(logs[i], used / limits[i].res);
      ExpiredStale(limits[i], es[i], vs[i], logs[i], used, sec);
    }
  }

  lemma ExpiredStale(l: Limit, e: Entry, v: View, log: seq<nat>, used: nat, sec: nat)
    requires LimitOk(l) && ViewOk(l, e, v, used) && UpTo(log, used / l.res)
    requires used <= sec && U16(sec / l.res) - e.last >= l.ncounts
    ensures Stale(l, log, sec)
  {
    hide UpTo, U16;
    DivMono(used, sec, l.res);
    PassedIsStale(e.last, log, used / l.res, sec / l.res, l.ncounts);
  }

  predicate Ascending(history: seq<Request>, sec: nat) {
    && (forall i, j :: 0 <= i < j < |history| ==> history[i].sec <= history[j].sec)
    && forall i :: 0 <= i < |history| ==> history[i].sec <= sec
  }

  lemma {:induction false} NaiveUpTo(limits: seq<Limit>, history: seq<Request>, k: Key, sec: nat)
    requires LimitsOk(limits) && Ascending(history, sec) && k in NaiveRun(limits, history).logs
    ensures LastSec(history, k).Some? && LastSec(history, k).value <= sec
    ensures AllUpTo(limits, NaiveRun(limits, history).logs[k], LastSec(history, k).value)
  {
    hide UpTo, AllUpTo, Passes;
    var front, c := history[..|history| - 1], history[|history| - 1];
    if k in NaiveRun(limits, front).logs { NaiveUpTo(limits, front, k, c.sec); }
    if k == c.key {
      var used := if k in NaiveRun(limits, front).logs then LastSec(front, k).value else 0;
      LoggedUpTo(limits, LogsOf(NaiveRun(limits, front).logs, |limits|, k), used, c.sec);
    }
  }

  lemma LoggedUpTo(limits: seq<Limit>, logs: seq<seq<nat>>, used: nat, sec: nat)
    requires LimitsOk(limits) && |logs| == |limits| && used <= sec
    requires AllUpTo(limits, logs, used) || forall i :: 0 <= i < |logs| ==> logs[i] == []
    ensures AllUpTo(limits, NaiveLogs(limits, logs, sec), sec)
  {
    hide Passes;
    forall i | 0 <= i < |limits| ensures UpTo(Logged(limits[i], logs[i], sec), sec / limits[i].res) {
      DivMono(used, sec, limits[i].res);
    }
  }

  /**
   At time `sec`, entries of keys that are not lost stand for the reference's logs, and
   logs without an entry have nothing left to say.
   */
  predicate Tracks(limits: seq<Limit>, entries: map<Key, seq<Entry>>, views: map<Key, seq<View>>, lost: set<Key>,
                   history: seq<Request>, sec: nat)
  {
    && LimitsOk(limits) && Ascending(history, sec) && views.Keys == entries.Keys && lost <= entries.Keys
    && var logs := NaiveRun(limits, history).logs;
    && (forall k :: k in entries ==> k in logs && EntryTracks(limits, entries[k], views[k], history, k, sec))
    && (forall k :: k in entries && k !in lost ==> Faithful(limits, views[k], logs[k], LastSec(history, k).value))
    && (forall k :: k in logs && k !in entries ==> AllStale(limits, logs[k], sec))
  }

  predicate EntryTracks(limits: seq<Limit>, es: seq<Entry>, vs: seq<View>, history: seq<Request>, k: Key, sec: nat) {
    && LastSec(history, k).Some? && LastSec(history, k).value <= sec
    && InUse(limits, es, vs, LastSec(history, k).value)
  }

  lemma TracksLater(limits: seq<Limit>, entries: map<Key, seq<Entry>>, views: map<Key, seq<View>>, lost: set<Key>,
                    history: seq<Request>, sec: nat, sec': nat)
    requires Tracks(limits, entries, views, lost, history, sec) && sec <= sec'
    ensures Tracks(limits, entries, views, lost, history, sec')
  {
    hide AllStale, Faithful, InUse;
    var logs := NaiveRun(limits, history).logs;
    forall k | k in logs && k !in entries ensures AllStale(limits, logs[k], sec') {
      StaleLater(limits, logs[k], sec, sec');
    }
  }

  lemma TrackedSizes(limits: seq<Limit>, entries: map<Key, seq<Entry>>, views: map<Key, seq<View>>, lost: set<Key>,
                     history: seq<Request>, sec: nat)
    requires Tracks(limits, entries, views, lost, history, sec)
    ensures forall k :: k in entries ==> k in views && |entries[k]| == |limits|
  {
    hide NaiveRun, AllStale, Faithful, LimitsOk;
    forall k | k in entries ensures |entries[k]| == |limits| {
      assert EntryTracks(limits, entries[k], views[k], history, k, sec);
    }
  }

  /** Removing what has expired; a lost key is found again. */
  lemma CleanTracks(limits: seq<Limit>, entries: map<Key, seq<Entry>>, views: map<Key, seq<View>>, lost: set<Key>,
                    history: seq<Request>, sec: nat, kept: map<Key, seq<Entry>>, views': map<Key, seq<View>>)
    requires Tracks(limits, entries, views, lost, history, sec)
    requires forall k :: k in entries ==> |entries[k]| == |limits|
    requires kept == map k | k in entries && !Expired(limits, entries[k], sec) :: entries[k]
    requires views' == map k | k in kept.Keys && k in views :: views[k]
    ensures Tracks(limits, kept, views', lost * kept.Keys, history, sec)
  {
    hide AllStale, Faithful, InUse, Expired, AllUpTo;
    var logs := NaiveRun(limits, history).logs;
    forall k | k in logs && k !in kept ensures AllStale(limits, logs[k], sec) {
      if k in entries {
        NaiveUpTo(limits, history, k, sec);
        ExpiredIsStale(limits, entries[k], views[k], logs[k], LastSec(history, k).value, sec);
      }
    }
  }

  lemma CheckTracks(limits: seq<Limit>, entries: map<Key, seq<Entry>>, views: map<Key, seq<View>>, lost: set<Key>,
                    history: seq<Request>, key: Key, sec: nat, es: seq<Entry>, vs: seq<View>, lost': set<Key>)
    requires Tracks(limits, entries, views, lost, history, sec) && InUse(limits, es, vs, sec)
    requires lost <= lost' <= lost + {key}
    requires key !in lost' ==>
               Faithful(limits, vs, NaiveLogs(limits, LogsOf(NaiveRun(limits, history).logs, |limits|, key), sec), sec)
    ensures Tracks(limits, entries[key := es], views[key := vs], lost', history + [Request(key, sec)], sec)
    ensures NaiveRun(limits, history + [Request(key, sec)]).answers ==
            NaiveRun(limits, history).answers +
            [AllPass(limits, LogsOf(NaiveRun(limits, history).logs, |limits|, key), sec)]
  {
    hide AllStale, Faithful, InUse, NaiveLogs, AllPass, LogsOf;
    var h', entries', views' := history + [Request(key, sec)], entries[key := es], views[key := vs];
    assert h'[..|h'| - 1] == history;
    var logs, logs' := NaiveRun(limits, history).logs, NaiveRun(limits, h').logs;
    forall k | k in entries' ensures k in logs' && EntryTracks(limits, entries'[k], views'[k], h', k, sec) {
      if k != key { assert EntryTracks(limits, entries[k], views[k], history, k, sec); }
    }
  }

  /** All checks of a key so far were timely. */
  predicate KeyTimely(limits: seq<Limit>, history: seq<Request>, key: Key)
    requires LimitsOk(limits)
  {
    history == [] ||
    var front, c := history[..|history| - 1], history[|history| - 1];
    KeyTimely(limits, front, key) && (c.key == key ==> Timely(limits, front, key, c.sec))
  }

  predicate NoneTimely(limits: seq<Limit>, history: seq<Request>, lost: set<Key>)
    requires LimitsOk(limits)
  {
    forall k :: k in lost ==> !KeyTimely(limits, history, k)
  }

  lemma LostSubset(limits: seq<Limit>, history: seq<Request>, lost: set<Key>, lost0: set<Key>)
    requires LimitsOk(limits) && NoneTimely(limits, history, lost0) && lost <= lost0
    ensures NoneTimely(limits, history, lost)
  {}

  lemma LostKept(limits: seq<Limit>, history: seq<Request>, lost: set<Key>, lost': set<Key>, c: Request)
    requires LimitsOk(limits) && NoneTimely(limits, history, lost) && lost <= lost' <= lost + {c.key}
    requires c.key in lost' ==> c.key in lost || !Timely(limits, history, c.key, c.sec)
    ensures NoneTimely(limits, history + [c], lost')
    ensures KeyTimely(limits, history + [c], c.key) ==> c.key !in lost'
  {
    hide Timely;
    assert (history + [c])[..|history|] == history;
  }

  /** The `i`-th answer is the reference's if all checks of its key up to then were timely. */
  predicate AnswerOk(limits: seq<Limit>, history: seq<Request>, answers: seq<bool>, i: nat)
    requires LimitsOk(limits) && i < |history| == |answers|
  {
    KeyTimely(limits, history[..i + 1], history[i].key) ==> answers[i] == NaiveRun(limits, history).answers[i]
  }

  predicate AnswersOk(limits: seq<Limit>, history: seq<Request>, answers: seq<bool>) {
    && LimitsOk(limits) && |answers| == |history|
    && forall i :: 0 <= i < |history| ==> AnswerOk(limits, history, answers, i)
  }

  lemma OneMoreAnswer(limits: seq<Limit>, history: seq<Request>, answers: seq<bool>, c: Request, ok: bool)
    requires AnswersOk(limits, history, answers)
    requires KeyTimely(limits, history + [c], c.key) ==>
               NaiveRun(limits, history + [c]).answers == NaiveRun(limits, history).answers + [ok]
    requires NaiveRun(limits, history).answers <= NaiveRun(limits, history + [c]).answers
    ensures AnswersOk(limits, history + [c], answers + [ok])
  {
    hide KeyTimely, NaiveRun;
    var h' := history + [c];
    forall i | 0 <= i < |h'| ensures AnswerOk(limits, h', answers + [ok], i) {
      if i < |history| {
        assert AnswerOk(limits, history, answers, i) && h'[..i + 1] == history[..i + 1];
      } else {
        assert h'[..i + 1] == h';
      }
    }
  }

  class RateLimit {
    const limits: seq<Limit>
    var entries: map<Key, seq<Entry>>
    var cleancount: nat

    // What the entries stand for, the keys for which that may not be the reference's
    // log, and everything asked and answered.
    ghost var views: map<Key, seq<View>>
    ghost var lost: set<Key>
    ghost var history: seq<Request>
    ghost var answers: seq<bool>
    ghost var clock: nat

    ghost predicate Valid()
      reads this
    {
      && 1 <= cleancount <= 2000 && LimitsOk(limits)
      && Tracks(limits, entries, views, lost, history, clock)
      && NoneTimely(limits, history, lost) && AnswersOk(limits, history, answers)
    }

    constructor (limits: seq<Limit>)
      requires LimitsOk(limits)
      ensures Valid() && this.limits == limits && history == [] && clock == 0 && lost == {}
    {
      this.limits := limits;
      entries, views, lost := map[], map[], {};
      cleancount := 2000;
      history, answers, clock := [], [], 0;
    }

    /** The loop over all limits of one key. */
    method CheckAll(es: seq<Entry>, sec: nat, ghost vs: seq<View>, ghost used: nat)
      returns (es': seq<Entry>, ok: bool, ghost vs': seq<View>)
      requires InUse(limits, es, vs, used) && used <= sec
      ensures InUse(limits, es', vs', sec)
      ensures forall logs :: Faithful(limits, vs, logs, used) && AllFair(limits, used, sec) ==>
                Faithful(limits, vs', NaiveLogs(limits, logs, sec), sec) && (ok <==> AllPass(limits, logs, sec))
    {
      hide InWindow, Represents, UpTo, CountAt, Fair;
      ok := true;
      es', vs' := [], [];
      var i: nat := 0;
      while i < |limits|
        invariant i <= |limits| && |es'| == |vs'| == i
        invariant forall j :: 0 <= j < i ==> vs[j].slot <= sec / limits[j].res
        invariant forall j :: 0 <= j < i ==> vs'[j] == Viewed(limits[j], vs[j], sec)
        invariant ok <==> forall j :: 0 <= j < i ==> ViewPasses(limits[j], vs[j], sec)
        invariant forall j :: 0 <= j < i ==> ViewOk(limits[j], es'[j], vs'[j], sec)
      {
        var l := limits[i];
        assert ViewOk(l, es[i], vs[i], used);
        DivMono(used, sec, l.res);
        WordKept(l, vs[i], sec);
        var e, passed := CheckLimit(l, es[i], sec, vs[i].log, vs[i].slot);
        if !passed { ok := false; }
        es', vs' := es' + [e], vs' + [Viewed(l, vs[i], sec)];
        i := i + 1;
      }
    }

    /** Every 2000th check first removes the entries that have expired. */
    method Clean(sec: nat)
      requires Valid() && clock <= sec
      modifies this`entries, this`cleancount, this`views, this`lost
      ensures 1 <= cleancount <= 2000 && Tracks(limits, entries, views, lost, history, sec) && lost <= old(lost)
    {
      hide Tracks, Expired, AnswersOk, NoneTimely;
      TrackedSizes(limits, entries, views, lost, history, clock);
      TracksLater(limits, entries, views, lost, history, clock, sec);
      cleancount := cleancount - 1;
      if cleancount == 0 {
        ghost var entries0, views0, lost0 := entries, views, lost;
        entries := map k | k in entries && !Expired(limits, entries[k], sec) :: entries[k];
        views := map k | k in entries.Keys && k in views :: views[k];
        lost := lost * entries.Keys;
        CleanTracks(limits, entries0, views0, lost0, history, sec, entries, views);
        cleancount := 2000;
      }
    }

    /** Find or create the key's entries, and consult all limits. */
    method Consult(key: Key, sec: nat) returns (es: seq<Entry>, ok: bool, ghost vs: seq<View>)
      requires Tracks(limits, entries, views, lost, history, sec)
      ensures InUse(limits, es, vs, sec)
      ensures var logs := LogsOf(NaiveRun(limits, history).logs, |limits|, key);
              key !in lost && (key in entries ==> Timely(limits, history, key, sec)) ==>
                Faithful(limits, vs, NaiveLogs(limits, logs, sec), sec) && (ok <==> AllPass(limits, logs, sec))
    {
      hide Represents, UpTo, Fair, InUse, Faithful, NaiveLogs, AllPass, AllStale;
      ghost var logs := LogsOf(NaiveRun(limits, history).logs, |limits|, key);
      ghost var used := sec;
      if key in entries {
        es, vs := entries[key], views[key];
        used := LastSec(history, key).value;
      } else {
        es := seq(|limits|, i requires 0 <= i < |limits| => Fresh(U16(sec / limits[i].res)));
        vs := FreshViews(limits, logs, sec, key in NaiveRun(limits, history).logs);
      }
      es, ok, vs := CheckAll(es, sec, vs, used);
    }

    method Store(key: Key, sec: nat, es: seq<Entry>, ghost ok: bool, ghost vs: seq<View>, ghost lost': set<Key>)
      requires 1 <= cleancount <= 2000 && Tracks(limits, entries, views, lost, history, sec)
      requires LimitsOk(limits) && NoneTimely(limits, history, lost) && AnswersOk(limits, history, answers)
      requires InUse(limits, es, vs, sec) && lost <= lost' <= lost + {key}
      requires key in lost' ==> key in lost || !Timely(limits, history, key, sec)
      requires var logs := LogsOf(NaiveRun(limits, history).logs, |limits|, key);
               key !in lost' ==>
                 Faithful(limits, vs, NaiveLogs(limits, logs, sec), sec) && (ok <==> AllPass(limits, logs, sec))
      modifies this`entries, this`views, this`lost, this`history, this`answers, this`clock
      ensures Valid() && lost == lost'
      ensures history == old(history) + [Request(key, sec)] && answers == old(answers) + [ok] && clock == sec
    {
      hide InUse, Faithful, NaiveLogs, AllPass, LogsOf, Timely, NaiveRun, AnswersOk, Tracks, NoneTimely, KeyTimely;
      ghost var c := Request(key, sec);
      LostKept(limits, history, lost, lost', c);
      CheckTracks(limits, entries, views, lost, history, key, sec, es, vs, lost');
      OneMoreAnswer(limits, history, answers, c, ok);
      entries := entries[key := es];
      views, lost := views[key := vs], lost';
      history, answers, clock := history + [c], answers + [ok], sec;
    }

    /**
     PSC_RateLimit_check, at any time that is not before the last one. An answer for a
     key whose checks have all been timely is the one the reference gives, which knows
     nothing of entries or clean-up (`AnswersOk`). A check that is not timely can only
     put its own key in doubt, until the key's entry is cleaned up.
     */
    method Check(key: Key, sec: nat) returns (ok: bool)
      requires Valid() && clock <= sec
      modifies this
      ensures Valid() && lost <= old(lost) + {key}
      ensures history == old(history) + [Request(key, sec)] && answers == old(answers) + [ok] && clock == sec
      ensures key in lost ==> key in old(lost) || !Timely(limits, old(history), key, sec)
      ensures key !in lost ==>
                (ok <==> AllPass(limits, LogsOf(NaiveRun(limits, old(history)).logs, |limits|, key), sec))
    {
      hide InUse, Faithful, NaiveLogs, AllPass, LogsOf, Timely, NaiveRun, AnswersOk, Tracks, NoneTimely, LimitsOk;
      Clean(sec);
      LostSubset(limits, history, lost, old(lost));
      var es;
      ghost var vs;
      es, ok, vs := Consult(key, sec);
      ghost var lapped := key in entries && !Timely(limits, history, key, sec);
      Store(key, sec, es, ok, vs, if lapped then lost + {key} else lost);
    }
  }

  lemma FreshViews(limits: seq<Limit>, logs: seq<seq<nat>>, sec: nat, known: bool) returns (vs: seq<View>)
    requires LimitsOk(limits) && |logs| == |limits|
    requires if known then AllStale(limits, logs, sec) else forall i :: 0 <= i < |logs| ==> logs[i] == []
    ensures Faithful(limits, vs, logs, sec) && AllFair(limits, sec, sec)
    ensures InUse(limits, seq(|limits|, i requires 0 <= i < |limits| => Fresh(U16(sec / limits[i].res))), vs, sec)
  {
    vs := seq(|limits|, i requires 0 <= i < |limits| => View(logs[i], sec / limits[i].res));
    forall i | 0 <= i < |limits| ensures ViewOk(limits[i], Fresh(U16(sec / limits[i].res)), vs[i], sec) {
      assert Stale(limits[i], logs[i], sec);
      FreshRepresents(limits[i], logs[i], sec / limits[i].res);
    }
  }
}
