/**
 The job queue of the mutex build (threadpool.c): a ring of slots under a lock,
 with a semaphore counting the jobs in it.

 Threads call these methods in any order; `Enqueue` and `Dequeue` are critical
 sections, and `Claim` is a semaphore wait that has returned. A worker dequeues
 once for each of its claims.
 */
module JobRing {
  import opened Common

  type Job = nat

  /** The k-th slot from `pos`, around the end of the ring. */
  function Slot(pos: nat, k: nat, size: nat): nat
    requires pos < size && k <= size
  {
    if pos + k < size then pos + k else pos + k - size
  }

  /** The ring holds `stored` from `pos` on. */
  ghost predicate Holds(ring: seq<Job>, pos: nat, stored: seq<Job>) {
    pos < |ring| && |stored| <= |ring| && forall k :: 0 <= k < |stored| ==> ring[Slot(pos, k, |ring|)] == stored[k]
  }

  lemma HoldsMore(ring: seq<Job>, pos: nat, stored: seq<Job>, job: Job)
    requires Holds(ring, pos, stored) && |stored| < |ring|
    ensures Holds(ring[Slot(pos, |stored|, |ring|) := job], pos, stored + [job])
    ensures var e := Slot(pos, |stored|, |ring|);
            e < |ring| && Slot(pos, |stored| + 1, |ring|) == if e + 1 == |ring| then 0 else e + 1
  {}

  lemma HoldsRest(ring: seq<Job>, pos: nat, stored: seq<Job>)
    requires Holds(ring, pos, stored) && stored != []
    ensures var next := if pos + 1 == |ring| then 0 else pos + 1;
            && stored[0] == ring[pos] && Holds(ring, next, stored[1..])
            && Slot(next, |stored| - 1, |ring|) == Slot(pos, |stored|, |ring|)
  {
    assert Slot(pos, 0, |ring|) == pos;
    var next := if pos + 1 == |ring| then 0 else pos + 1;
    forall k | 0 <= k < |stored| - 1 ensures ring[Slot(next, k, |ring|)] == stored[1..][k] {
      assert Slot(next, k, |ring|) == Slot(pos, k + 1, |ring|);
    }
  }

  class JobRing {
    const jobs: array<Job>
    const sz: nat
    var avail: nat
    var enqpos: nat
    var deqpos: nat
    var count: nat

    // What the ring holds; what was accepted and handed out so far; and the
    // semaphore waits that have returned without their job being taken yet.
    ghost var stored: seq<Job>
    ghost var accepted: seq<Job>
    ghost var taken: seq<Job>
    ghost var claims: nat

    /** Every accepted job is taken or stored, once and in order; every stored job is counted or claimed. */
    ghost predicate Valid()
      reads this, jobs
    {
      && jobs.Length == sz > 0 && enqpos < sz && deqpos < sz
      && avail + |stored| == sz && |stored| <= sz
      && enqpos == Slot(deqpos, |stored|, sz)
      && Holds(jobs[..], deqpos, stored)
      && count + claims == |stored|
      && accepted == taken + stored
    }

    constructor (size: nat)
      requires size > 0
      ensures Valid() && sz == size && accepted == [] && taken == [] && claims == 0 && fresh(jobs)
    {
      jobs := new Job[size];
      sz := size;
      avail, enqpos, deqpos, count := size, 0, 0, 0;
      stored, accepted, taken, claims := [], [], [], 0;
    }

    /** JobQueue_enqueue rejects a job only when the ring is full. */
    method Enqueue(job: Job) returns (ok: bool)
      requires Valid()
      modifies this, jobs
      ensures Valid() && taken == old(taken) && claims == old(claims)
      ensures ok <==> |old(stored)| < sz
      ensures accepted == if ok then old(accepted) + [job] else old(accepted)
    {
      if avail == 0 { return false; }
      hide Slot, Holds;
      HoldsMore(jobs[..], deqpos, stored, job);
      Regroup(taken, stored, [job]);
      avail := avail - 1;
      ghost var ring := jobs[..];
      jobs[enqpos] := job;
      assert jobs[..] == ring[enqpos := job];
      enqpos := enqpos + 1;
      if enqpos == sz { enqpos := 0; }
      count := count + 1;
      stored, accepted := stored + [job], accepted + [job];
      ok := true;
    }

    /** sem_wait, at the moment it returns. */
    method Claim()
      requires Valid() && count > 0
      modifies this`count, this`claims
      ensures Valid() && count == old(count) - 1 && claims == old(claims) + 1
    {
      count := count - 1;
      claims := claims + 1;
    }

    /** The rest of JobQueue_dequeue: a claim always finds a job, the oldest one. */
    method Dequeue() returns (job: Job)
      requires Valid() && claims > 0
      modifies this`avail, this`deqpos, this`claims, this`stored, this`taken
      ensures Valid() && accepted == old(accepted) && claims == old(claims) - 1
      ensures taken == old(taken) + [job] && old(stored) == [job] + stored
    {
      hide Slot, Holds;
      HoldsRest(jobs[..], deqpos, stored);
      job := jobs[deqpos];
      deqpos := deqpos + 1;
      if deqpos == sz { deqpos := 0; }
      avail := avail + 1;
      claims := claims - 1;
      assert stored == [job] + stored[1..];
      Regroup(taken, [job], stored[1..]);
      taken, stored := taken + [job], stored[1..];
    }
  }
}
