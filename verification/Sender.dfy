/**
 The sending half of a connection (connection.c): accepted buffers are queued as
 records, gathered into one write buffer, and written in arbitrary portions; the
 owner of a buffer is told when the last byte of it is out.
 */
module Sender {
  import opened Common

  const NWRITERECS: nat := 16
  const WRBUFSZ: nat := 16 * 1024

  /** A null id asks for no notification. */
  type Id = nat

  datatype Record = Record(buf: Bytes, pos: nat, id: Id)

  /** `id` is due when the write buffer is written up to `pos`. */
  datatype Note = Note(id: Id, pos: nat)

  datatype Request = Request(buf: Bytes, id: Id)

  /** What the TLS layer waits for before it can go on. */
  datatype Wants = Nothing | ToRead | ToWrite

  /** A write takes up to `quota` bytes, or has to wait; what for matters with TLS only. */
  datatype Outcome = Wrote(quota: nat) | WouldBlock(wants: Wants)

  /** A notification, and how many bytes of the stream must be out before it. */
  datatype Due = Due(id: Id, offset: nat)

  function Rest(r: Record): Bytes
    requires r.pos <= |r.buf|
  {
    r.buf[r.pos..]
  }

  ghost predicate RecordsOk(recs: seq<Record>) {
    forall i :: 0 <= i < |recs| ==> recs[i].pos <= |recs[i].buf|
  }

  /** The bytes left in a queue of records. */
  ghost function Queued(recs: seq<Record>): Bytes
    requires RecordsOk(recs)
  {
    if recs == [] then [] else Rest(recs[0]) + Queued(recs[1..])
  }

  /** The notifications of a queue of records whose first byte left has offset `at`. */
  ghost function QueuedDues(recs: seq<Record>, at: nat): seq<Due>
    requires RecordsOk(recs)
  {
    if recs == [] then []
    else
      var end := at + |Rest(recs[0])|;
      DueOf(recs[0].id, end) + QueuedDues(recs[1..], end)
  }

  /** The notifications of the write buffer, whose first byte has offset `base`. */
  ghost function NoteDues(notes: seq<Note>, base: nat): seq<Due> {
    seq(|notes|, i requires 0 <= i < |notes| => DueAt(notes[i], base))
  }

  function DueAt(note: Note, base: nat): Due {
    Due(note.id, base + note.pos)
  }

  ghost predicate NotesOk(notes: seq<Note>, len: nat) {
    && (forall i :: 0 <= i < |notes| ==> notes[i].pos <= len)
    && (forall i, j :: 0 <= i < j < |notes| ==> notes[i].pos <= notes[j].pos)
  }

  /** With TLS, the notes raised are struck off by clearing their ids. */
  ghost predicate Marked(notes: seq<Note>, told: nat, tls: bool) {
    forall i :: 0 <= i < |notes| ==> (notes[i].id == 0 <==> tls && i < told)
  }

  /** The notifications raised, without repetitions. */
  ghost predicate Once(raised: seq<Due>, done: seq<Due>) {
    forall d :: d in raised <==> d in done
  }

  /** The notes raised so far; without TLS they can be raised again. */
  ghost predicate Repeatable(notes: seq<Note>, told: nat, base: nat, done: seq<Due>) {
    told <= |notes| && forall i :: 0 <= i < told ==> DueAt(notes[i], base) in done
  }

  lemma OnceMore(raised: seq<Due>, done: seq<Due>, d: Due)
    requires Once(raised, done)
    ensures Once(raised + [d], done + [d]) && (d in done ==> Once(raised + [d], done))
  {}

  lemma RepeatableMore(notes: seq<Note>, told: nat, base: nat, done: seq<Due>)
    requires Repeatable(notes, told, base, done)
    ensures told < |notes| ==> Repeatable(notes, told + 1, base, done + [DueAt(notes[told], base)])
    ensures forall i :: 0 <= i < told ==> DueAt(notes[i], base) in done
  {}

  /**
   Every notification promised was raised, is open, or was dropped, as often as it
   was promised; and as long as none was dropped, in the order of the promises.
   */
  ghost predicate Accounted(promised: seq<Due>, done: seq<Due>, open: seq<Due>, dropped: seq<Due>) {
    && multiset(promised) == multiset(done) + multiset(open) + multiset(dropped)
    && (dropped == [] ==> promised == done + open)
  }

  lemma AccountPromise(promised: seq<Due>, done: seq<Due>, open: seq<Due>, dropped: seq<Due>, due: seq<Due>)
    requires Accounted(promised, done, open, dropped)
    ensures Accounted(promised + due, done, open + due, dropped)
  {
    Regroup(done, open, due);
  }

  lemma AccountRaise(promised: seq<Due>, done: seq<Due>, due: Due, rest: seq<Due>, dropped: seq<Due>)
    requires Accounted(promised, done, [due] + rest, dropped)
    ensures Accounted(promised, done + [due], rest, dropped)
  {
    Regroup(done, [due], rest);
  }

  lemma AccountDrop(promised: seq<Due>, done: seq<Due>, lost: seq<Due>, rest: seq<Due>, dropped: seq<Due>)
    requires Accounted(promised, done, lost + rest, dropped)
    ensures Accounted(promised, done, rest, dropped + lost)
  {
    if lost == [] { assert lost + rest == rest && dropped + lost == dropped; }
  }

  ghost predicate AllOut(dues: seq<Due>, written: nat) {
    forall d :: d in dues ==> d.offset <= written
  }

  ghost function DueOf(id: Id, offset: nat): seq<Due> {
    if id != 0 then [Due(id, offset)] else []
  }

  lemma {:induction false} QueuedAppend(recs: seq<Record>, r: Record)
    requires RecordsOk(recs) && r.pos <= |r.buf|
    ensures RecordsOk(recs + [r]) && Queued(recs + [r]) == Queued(recs) + Rest(r)
  {
    if recs == [] {
      assert [] + [r] == [r] && [r][1..] == [];
    } else {
      assert (recs + [r])[1..] == recs[1..] + [r];
      QueuedAppend(recs[1..], r);
    }
  }

  lemma {:induction false} DuesAppend(recs: seq<Record>, r: Record, at: nat)
    requires RecordsOk(recs) && r.pos <= |r.buf| && RecordsOk(recs + [r])
    ensures QueuedDues(recs + [r], at) == QueuedDues(recs, at) + DueOf(r.id, at + |Queued(recs)| + |Rest(r)|)
  {
    if recs == [] {
      assert [] + [r] == [r] && [r][1..] == [];
    } else {
      assert (recs + [r])[1..] == recs[1..] + [r];
      var end, last := at + |Rest(recs[0])|, at + |Queued(recs)| + |Rest(r)|;
      DuesAppend(recs[1..], r, end);
      Regroup(DueOf(recs[0].id, end), QueuedDues(recs[1..], end), DueOf(r.id, last));
    }
  }

  /** Taking `n` bytes of the first record, short of its end or all of it. */
  lemma TakeSome(recs: seq<Record>, n: nat)
    requires recs != [] && RecordsOk(recs) && n <= |Rest(recs[0])|
    ensures var r := recs[0];
            var left := recs[0 := r.(pos := r.pos + n)];
            && RecordsOk(left) && RecordsOk(recs[1..])
            && Queued(recs) == Rest(r)[..n] + Queued(left)
            && (n == |Rest(r)| ==> Queued(left) == Queued(recs[1..]))
  {
    var r := recs[0];
    var left := recs[0 := r.(pos := r.pos + n)];
    assert left[1..] == recs[1..];
    assert Rest(r) == Rest(r)[..n] + Rest(left[0]);
    Regroup(Rest(r)[..n], Rest(left[0]), Queued(recs[1..]));
  }

  lemma TakeSomeDues(recs: seq<Record>, n: nat, at: nat)
    requires recs != [] && RecordsOk(recs) && n <= |Rest(recs[0])|
    ensures var r := recs[0];
            var left := recs[0 := r.(pos := r.pos + n)];
            && RecordsOk(left) && RecordsOk(recs[1..])
            && QueuedDues(recs, at) == QueuedDues(left, at + n)
            && (n == |Rest(r)| ==> QueuedDues(recs, at) == DueOf(r.id, at + n) + QueuedDues(recs[1..], at + n))
  {
    var r := recs[0];
    var left := recs[0 := r.(pos := r.pos + n)];
    assert left[1..] == recs[1..];
    assert |Rest(left[0])| == |Rest(r)| - n;
  }

  /** The records left when up to `room` bytes of them are taken. */
  ghost function Left(recs: seq<Record>, room: nat): seq<Record>
    requires RecordsOk(recs)
  {
    if recs == [] || room == 0 then recs
    else
      var n := |Rest(recs[0])|;
      if n <= room then Left(recs[1..], room - n) else [recs[0].(pos := recs[0].pos + room)] + recs[1..]
  }

  /** The notifications of the records that are taken whole then. */
  ghost function TakenDues(recs: seq<Record>, room: nat, at: nat): seq<Due>
    requires RecordsOk(recs)
  {
    if recs == [] || room == 0 then []
    else
      var n := |Rest(recs[0])|;
      if n <= room then DueOf(recs[0].id, at + n) + TakenDues(recs[1..], room - n, at + n) else []
  }

  /** What a request changes. */
  datatype Queue = Queue(recs: seq<Record>, accepted: Bytes, promised: seq<Due>, empties: bool)

  ghost function Enqueued(q: Queue, r: Request): Queue {
    if |q.recs| < NWRITERECS then
      Queue(q.recs + [Record(r.buf, 0, r.id)], q.accepted + r.buf,
            q.promised + DueOf(r.id, |q.accepted| + |r.buf|), q.empties || (r.id != 0 && r.buf == []))
    else q
  }

  ghost function AllEnqueued(q: Queue, requests: seq<Request>): Queue {
    if requests == [] then q else Enqueued(AllEnqueued(q, requests[..|requests| - 1]), requests[|requests| - 1])
  }

  lemma {:induction false} EnqueuedBoth(q: Queue, a: seq<Request>, b: seq<Request>)
    ensures AllEnqueued(AllEnqueued(q, a), b) == AllEnqueued(q, a + b)
  {
    hide Enqueued;
    if b == [] {
      assert a + b == a;
    } else {
      EnqueuedBoth(q, a, b[..|b| - 1]);
      assert (a + b)[..|a + b| - 1] == a + b[..|b| - 1];
    }
  }

  lemma {:induction false} EnqueuedGrows(q: Queue, requests: seq<Request>)
    ensures var q' := AllEnqueued(q, requests);
            q.recs <= q'.recs && q.accepted <= q'.accepted && q.promised <= q'.promised && (q.empties ==> q'.empties)
  {
    if requests != [] { EnqueuedGrows(q, requests[..|requests| - 1]); }
  }

  /** What the handler sends when it gets these notifications. */
  function Answers(handler: Id -> seq<Request>, dues: seq<Due>): seq<Request> {
    if dues == [] then [] else Answers(handler, dues[..|dues| - 1]) + handler(dues[|dues| - 1].id)
  }

  lemma OneMoreAnswer(q: Queue, handler: Id -> seq<Request>, dues: seq<Due>, d: Due)
    ensures AllEnqueued(AllEnqueued(q, Answers(handler, dues)), handler(d.id)) ==
            AllEnqueued(q, Answers(handler, dues + [d]))
  {
    assert (dues + [d])[..|dues|] == dues;
    EnqueuedBoth(q, Answers(handler, dues), handler(d.id));
  }

  lemma {:induction false} NoAnswers(handler: Id -> seq<Request>, dues: seq<Due>)
    requires forall id :: handler(id) == []
    ensures Answers(handler, dues) == []
  {
    if dues != [] { NoAnswers(handler, dues[..|dues| - 1]); }
  }

  class Sender {
    const tls: bool
    var recs: seq<Record>
    const wrbuf: array<Byte>
    var wrbuflen: nat
    var wrbufpos: nat
    var notes: seq<Note>
    var writest: Wants

    // The stream so far: bytes accepted and written, notifications promised and
    // raised. `base` is the offset of the first byte of the write buffer, and
    // `told` of its notes have been raised; `done` has these and earlier ones, once.
    // `dropped` has the notes that were overwritten while open, and `empties` is set
    // when a notification is promised for an empty buffer.
    ghost var accepted: Bytes
    ghost var written: Bytes
    ghost var promised: seq<Due>
    ghost var raised: seq<Due>
    ghost var done: seq<Due>
    ghost var base: nat
    ghost var told: nat
    ghost var dropped: seq<Due>
    ghost var empties: bool

    ghost predicate Shaped()
      reads this, wrbuf
    {
      && wrbuf.Length == WRBUFSZ && wrbufpos <= wrbuflen <= WRBUFSZ
      && |recs| <= NWRITERECS && RecordsOk(recs)
      && NotesOk(notes, wrbuflen) && told <= |notes|
      && |written| == base + wrbufpos
      && Marked(notes, told, tls) && (forall i :: 0 <= i < told ==> notes[i].pos <= wrbufpos)
    }

    /** What is still to be written. */
    ghost function Pending(): Bytes
      requires Shaped()
      reads this, wrbuf
    {
      wrbuf[wrbufpos..wrbuflen] + Queued(recs)
    }

    /** The notifications of the write buffer still to be raised. */
    ghost function OpenNotes(): seq<Due>
      requires told <= |notes|
      reads this
    {
      NoteDues(notes[told..], base)
    }

    ghost function Line(): Queue
      reads this
    {
      Queue(recs, accepted, promised, empties)
    }

    /** The notifications still to be raised. */
    ghost function Open(): seq<Due>
      requires Shaped()
      reads this, wrbuf
    {
      NoteDues(notes[told..], base) + QueuedDues(recs, base + wrbuflen)
    }

    /**
     Nothing of the stream is lost, doubled or reordered; no notification comes
     early; and with TLS none comes twice.
     */
    ghost predicate Valid()
      reads this, wrbuf
    {
      && Shaped()
      && accepted == written + Pending()
      && AllOut(done, |written|) && AllOut(raised, |written|)
      && Accounted(promised, done, Open(), dropped) && (!tls ==> writest.Nothing?)
      && (tls ==> raised == done) && Once(raised, done) && (!tls ==> Repeatable(notes, told, base, done))
      && (!empties ==> NoEmpty(recs) && Positive(notes) && dropped == [])
    }

    constructor (tls: bool)
      ensures Valid() && this.tls == tls && accepted == [] && written == []
      ensures promised == [] && raised == [] && done == []
      ensures recs == [] && wrbuflen == 0 && notes == [] && dropped == [] && !empties && fresh(wrbuf)
      ensures base == told == 0 && writest.Nothing?
    {
      this.tls := tls;
      recs, notes := [], [];
      wrbuf := new Byte[WRBUFSZ];
      wrbuflen, wrbufpos, base, told := 0, 0, 0, 0;
      accepted, written, promised, raised, done := [], [], [], [], [];
      dropped, empties, writest := [], false, Nothing;
    }

    /** PSC_Connection_sendAsync: a full queue, or a connection that cannot send, refuses. */
    method SendAsync(buf: Bytes, id: Id, ready: bool) returns (ok: bool)
      requires Valid()
      modifies this`recs, this`accepted, this`promised, this`empties
      ensures Valid() && ok == (ready && |old(recs)| < NWRITERECS)
      ensures ok ==> accepted == old(accepted) + buf && promised == old(promised) + DueOf(id, |accepted|)
      ensures ok ==> recs == old(recs) + [Record(buf, 0, id)] && empties == (old(empties) || (id != 0 && buf == []))
      ensures !ok ==> accepted == old(accepted) && promised == old(promised)
      ensures !ok ==> recs == old(recs) && empties == old(empties)
      ensures ready ==> Line() == Enqueued(old(Line()), Request(buf, id))
    {
      hide Valid;
      ok := ready && |recs| < NWRITERECS;
      if ok { Accept(buf, id); }
    }

    method Accept(buf: Bytes, id: Id)
      requires Valid() && |recs| < NWRITERECS
      modifies this`recs, this`accepted, this`promised, this`empties
      ensures Valid() && accepted == old(accepted) + buf && promised == old(promised) + DueOf(id, |accepted|)
      ensures recs == old(recs) + [Record(buf, 0, id)] && empties == (old(empties) || (id != 0 && buf == []))
    {
      hide Queued, QueuedDues, NoteDues, DueOf, AllOut, NoEmpty, Positive, NotesOk, Marked, RecordsOk, Rest, Accounted;
      NoEmptyAppend(recs, buf, id);
      ghost var r, open, pending := Record(buf, 0, id), Open(), Pending();
      QueuedAppend(recs, r);
      DuesAppend(recs, r, base + wrbuflen);
      Regroup(wrbuf[wrbufpos..wrbuflen], Queued(recs), buf);
      Regroup(written, pending, buf);
      Regroup(NoteDues(notes[told..], base), QueuedDues(recs, base + wrbuflen), DueOf(id, |accepted| + |buf|));
      AccountPromise(promised, done, open, dropped, DueOf(id, |accepted| + |buf|));
      recs := recs + [Record(buf, 0, id)];
      accepted := accepted + buf;
      promised := promised + DueOf(id, |accepted|);
      empties := empties || (id != 0 && buf == []);
    }

    /** memcpy to the end of the write buffer. */
    method CopyIn(data: Bytes)
      requires wrbuf.Length == WRBUFSZ && wrbuflen + |data| <= WRBUFSZ
      modifies this`wrbuflen, wrbuf
      ensures wrbuflen == old(wrbuflen) + |data| && wrbuf[..wrbuflen] == old(wrbuf[..wrbuflen]) + data
    {
      forall k | 0 <= k < |data| { wrbuf[wrbuflen + k] := data[k]; }
      wrbuflen := wrbuflen + |data|;
    }

    /** One turn of the gathering loop; `more` tells whether the record was taken whole. */
    method GatherOne(recno: nat, gathered: seq<Note>) returns (more: bool, gathered': seq<Note>)
      requires wrbuf.Length == WRBUFSZ && wrbuflen < WRBUFSZ && recno < |recs| && RecordsOk(recs)
      requires NotesOk(gathered, wrbuflen) && Asking(gathered)
      modifies this`recs, this`wrbuflen, wrbuf
      ensures |recs| == |old(recs)| && RecordsOk(recs) && old(wrbuflen) <= wrbuflen <= WRBUFSZ
      ensures var left := recs[if more then recno + 1 else recno..];
              && wrbuf[..wrbuflen] + Queued(left) == old(wrbuf[..wrbuflen]) + Queued(old(recs)[recno..])
              && NoteDues(gathered', base) + QueuedDues(left, base + wrbuflen)
                 == NoteDues(gathered, base) + QueuedDues(old(recs)[recno..], base + old(wrbuflen))
              && Left(left, WRBUFSZ - wrbuflen) == Left(old(recs)[recno..], WRBUFSZ - old(wrbuflen))
              && NoteDues(gathered', base) + TakenDues(left, WRBUFSZ - wrbuflen, base + wrbuflen)
                 == NoteDues(gathered, base)
                    + TakenDues(old(recs)[recno..], WRBUFSZ - old(wrbuflen), base + old(wrbuflen))
      ensures !more ==> wrbuflen == WRBUFSZ
      ensures NotesOk(gathered', wrbuflen) && Asking(gathered')
      ensures NoEmpty(old(recs)[recno..]) && Positive(gathered) ==>
                NoEmpty(recs[if more then recno + 1 else recno..]) && Positive(gathered')
    {
      hide Queued, QueuedDues, NoteDues, NotesOk, Asking, RecordsOk, NoEmpty, Positive, Left, TakenDues;
      var rec := recs[recno];
      RecordIsOk(recs, recno);
      var chunk := |rec.buf| - rec.pos;
      if chunk + wrbuflen > WRBUFSZ { chunk := WRBUFSZ - wrbuflen; }
      NotesGrow(gathered, wrbuflen, wrbuflen + chunk, rec.id);
      GatherPositive(recs, recno, chunk, gathered, wrbuflen);
      TakeFrom(recs, recno, chunk, gathered, base, wrbuflen);
      TakeLeft(recs, recno, WRBUFSZ - wrbuflen, gathered, base, wrbuflen);
      ghost var recs' := recs[recno := rec.(pos := rec.pos + chunk)];
      ghost var left := recs'[if chunk == |Rest(rec)| then recno + 1 else recno..];
      RecordsFrom(recs', if chunk == |Rest(rec)| then recno + 1 else recno);
      Regroup(wrbuf[..wrbuflen], rec.buf[rec.pos..rec.pos + chunk], Queued(left));
      CopyIn(rec.buf[rec.pos..rec.pos + chunk]);
      recs := recs[recno := rec.(pos := rec.pos + chunk)];
      more := rec.pos + chunk == |rec.buf|;
      gathered' := if more && rec.id != 0 then gathered + [Note(rec.id, wrbuflen)] else gathered;
    }

    /** Filling the empty write buffer from the records, as far as either goes. */
    method Gather()
      requires Valid() && wrbuflen == 0
      modifies this`recs, this`wrbuflen, this`notes, this`told, this`dropped, wrbuf
      ensures Valid() && Pending() == old(Pending()) && told == 0
      ensures wrbuflen == if |old(Pending())| <= WRBUFSZ then |old(Pending())| else WRBUFSZ
      ensures dropped == old(dropped) + old(OpenNotes())
      ensures recs == Left(old(recs), WRBUFSZ) && OpenNotes() == TakenDues(old(recs), WRBUFSZ, base)
      ensures wrbuflen < WRBUFSZ ==> recs == []
    {
      hide Queued, QueuedDues, NoteDues, AllOut, NoEmpty, Positive, NotesOk, Marked, Asking, RecordsOk, Once, Accounted,
        Left, TakenDues;
      ghost var all, dues, pending, open := Queued(recs), QueuedDues(recs, base), Pending(), Open();
      assert pending == all;
      ghost var lost := OpenNotes();
      AccountDrop(promised, done, lost, dues, dropped);
      NoneOpen(notes, told, base);
      var gathered := GatherAll();
      dropped := dropped + lost;
      notes, told := gathered, 0;
      QueuedNone(recs);
      GatheredMarked(notes, tls);
      assert wrbuf[0..wrbuflen] == wrbuf[..wrbuflen] && notes[0..] == notes;
      assert Pending() == all && Open() == dues;
    }

    /** The gathering loop, and the removal of the records it took. */
    method GatherAll() returns (gathered: seq<Note>)
      requires wrbuf.Length == WRBUFSZ && wrbuflen == 0 && RecordsOk(recs)
      modifies this`recs, this`wrbuflen, wrbuf
      ensures |recs| <= |old(recs)| && RecordsOk(recs) && wrbuflen <= WRBUFSZ
      ensures wrbuf[..wrbuflen] + Queued(recs) == Queued(old(recs))
      ensures NoteDues(gathered, base) + QueuedDues(recs, base + wrbuflen) == QueuedDues(old(recs), base)
      ensures NotesOk(gathered, wrbuflen) && Asking(gathered)
      ensures NoEmpty(old(recs)) ==> NoEmpty(recs) && Positive(gathered)
      ensures wrbuflen < WRBUFSZ ==> recs == []
      ensures recs == Left(old(recs), WRBUFSZ) && NoteDues(gathered, base) == TakenDues(old(recs), WRBUFSZ, base)
    {
      hide Queued, QueuedDues, NoteDues, NoEmpty, Positive, NotesOk, Asking, RecordsOk, Left, TakenDues;
      ghost var all, dues := Queued(recs), QueuedDues(recs, base);
      assert recs[0..] == recs;
      NoneOpen([], 0, base);
      StartsEmpty(recs, base);
      NoneTaken(TakenDues(recs, WRBUFSZ, base), base);
      var recno, more := 0, true;
      gathered := [];
      while more && recno < |recs| && wrbuflen < WRBUFSZ
        invariant recno <= |recs| == |old(recs)| && RecordsOk(recs) && RecordsOk(recs[recno..]) && wrbuflen <= WRBUFSZ
        invariant wrbuf[..wrbuflen] + Queued(recs[recno..]) == all
        invariant NoteDues(gathered, base) + QueuedDues(recs[recno..], base + wrbuflen) == dues
        invariant Left(recs[recno..], WRBUFSZ - wrbuflen) == Left(old(recs), WRBUFSZ)
        invariant NoteDues(gathered, base) + TakenDues(recs[recno..], WRBUFSZ - wrbuflen, base + wrbuflen)
                  == TakenDues(old(recs), WRBUFSZ, base)
        invariant NotesOk(gathered, wrbuflen) && Asking(gathered)
        invariant NoEmpty(old(recs)) ==> NoEmpty(recs[recno..]) && Positive(gathered)
        invariant !more ==> wrbuflen == WRBUFSZ
        decreases more, |recs| - recno
      {
        more, gathered := GatherOne(recno, gathered);
        if more { recno := recno + 1; }
        RecordsFrom(recs, recno);
      }
      NothingTaken(recs[recno..], WRBUFSZ - wrbuflen, base + wrbuflen, NoteDues(gathered, base));
      recs := recs[recno..];
    }

    /** What the kernel or the TLS layer takes. */
    method Put(n: nat)
      requires Valid() && n <= wrbuflen - wrbufpos
      modifies this`wrbufpos, this`written
      ensures Valid() && written == old(written) + old(Pending())[..n] && wrbufpos == old(wrbufpos) + n
    {
      hide Queued, QueuedDues, NoteDues, Marked, Once, Accounted, NoEmpty, Positive, Repeatable, RecordsOk;
      ghost var chunk, left := wrbuf[wrbufpos..wrbufpos + n], wrbuf[wrbufpos + n..wrbuflen];
      assert wrbuf[wrbufpos..wrbuflen] == chunk + left;
      assert Pending()[..n] == chunk;
      PutSplit(written, chunk, left, Queued(recs));
      written := written + chunk;
      wrbufpos := wrbufpos + n;
    }

    /** The handler of dataSent may queue more. */
    method Callback(requests: seq<Request>)
      requires Valid()
      modifies this`recs, this`accepted, this`promised, this`empties
      ensures Valid() && Line() == AllEnqueued(old(Line()), requests)
    {
      hide Valid;
      for i := 0 to |requests|
        invariant Valid() && Line() == AllEnqueued(old(Line()), requests[..i])
      {
        assert requests[..i + 1][..i] == requests[..i];
        var _ := SendAsync(requests[i].buf, requests[i].id, true);
      }
      assert requests[..|requests|] == requests;
    }

    /** Raising dataSent for the note at `i`, with what the handler then does; with TLS the note is struck off. */
    method RaiseOne(i: nat, handler: Id -> seq<Request>)
      requires Valid() && i < |notes| && notes[i].pos <= wrbufpos && (if tls then i == told else i <= told)
      modifies this`recs, this`accepted, this`promised, this`empties, this`notes, this`raised, this`done, this`told
      ensures Valid() && Line() == AllEnqueued(old(Line()), handler(old(notes)[i].id))
      ensures raised == old(raised) + [DueAt(old(notes)[i], base)]
      ensures done == old(done) + if i == old(told) then [DueAt(old(notes)[i], base)] else []
      ensures told == if i == old(told) then i + 1 else old(told)
      ensures notes == if tls then old(notes)[i := Note(0, old(notes)[i].pos)] else old(notes)
      ensures notes[i + 1..] == old(notes)[i + 1..]
    {
      hide Queued, QueuedDues, NoteDues, NotesOk, Marked, AllOut, DueAt, Once, Repeatable, Accounted, NoEmpty,
        Positive, AllEnqueued;
      Callback(handler(notes[i].id));
      if tls { StrikeTls(i); } else { StrikePlain(i); }
    }

    /** The account of a notification: with TLS, its id is cleared. */
    method StrikeTls(i: nat)
      requires Valid() && tls && i == told < |notes| && notes[i].pos <= wrbufpos
      modifies this`notes, this`raised, this`done, this`told
      ensures Valid() && told == i + 1
      ensures raised == old(raised) + [DueAt(old(notes)[i], base)] && done == old(done) + [DueAt(old(notes)[i], base)]
      ensures notes == old(notes)[i := Note(0, old(notes)[i].pos)]
    {
      hide Queued, QueuedDues, NoteDues, NotesOk, Marked, AllOut, DueAt, Once, Repeatable, Accounted;
      ghost var due, pending := DueAt(notes[i], base), Pending();
      DueHere(notes[i], base);
      StrikeOne(notes, i, told, tls, wrbuflen);
      AllOutMore(done, due, |written|);
      OnceMore(raised, done, due);
      NextNote(notes, i, base, QueuedDues(recs, base + wrbuflen));
      AccountRaise(promised, done, due, NoteDues(notes[i + 1..], base) + QueuedDues(recs, base + wrbuflen), dropped);
      notes := notes[i := Note(0, notes[i].pos)];
      raised, done, told := raised + [due], done + [due], told + 1;
      assert Pending() == pending;
    }

    /** Without TLS nothing changes. */
    ghost method StrikePlain(i: nat)
      requires Valid() && !tls && i <= told && i < |notes| && notes[i].pos <= wrbufpos
      modifies this`raised, this`done, this`told
      ensures Valid() && told == if i == old(told) then i + 1 else old(told)
      ensures raised == old(raised) + [DueAt(notes[i], base)]
      ensures done == old(done) + if i == old(told) then [DueAt(notes[i], base)] else []
    {
      hide Queued, QueuedDues, NoteDues, NotesOk, Marked, AllOut, DueAt, Once, Repeatable, Accounted;
      var due, pending := DueAt(notes[i], base), Pending();
      DueHere(notes[i], base);
      StrikeOne(notes, i, told, tls, wrbuflen);
      AllOutMore(raised, due, |written|);
      OnceMore(raised, done, due);
      RepeatableMore(notes, told, base, done);
      raised := raised + [due];
      if i == told {
        AllOutMore(done, due, |written|);
        NextNote(notes, i, base, QueuedDues(recs, base + wrbuflen));
        AccountRaise(promised, done, due, NoteDues(notes[i + 1..], base) + QueuedDues(recs, base + wrbuflen), dropped);
        done, told := done + [due], told + 1;
      }
      assert Pending() == pending;
    }

    /** The first note not struck off. */
    method FirstNote() returns (notno: nat)
      requires Valid()
      ensures notno == if tls then told else 0
    {
      notno := 0;
      while notno < |notes| && notes[notno].id == 0
        invariant notno <= if tls then told else 0
      {
        notno := notno + 1;
      }
    }

    /** dataSent for every note that is due, from `start` on. */
    method RaiseNotes(start: nat, handler: Id -> seq<Request>)
      requires Valid() && start == if tls then told else 0
      modifies this`recs, this`accepted, this`promised, this`empties, this`notes, this`raised, this`done, this`told
      ensures Valid() && |notes| == |old(notes)| && notes[told..] == old(notes)[told..]
      ensures old(told) <= told <= |notes| && (told < |notes| ==> notes[told].pos > wrbufpos)
      ensures done == old(done) + NoteDues(old(notes)[old(told)..told], base)
      ensures raised == old(raised) + NoteDues(old(notes)[start..told], base)
      ensures Line() == AllEnqueued(old(Line()), Answers(handler, NoteDues(old(notes)[start..told], base)))
    {
      hide Queued, QueuedDues, NoteDues, AllOut, Once, Repeatable, NoEmpty, Positive, Marked, NotesOk, Accounted,
        DueAt, Answers, AllEnqueued, Raising;
      ghost var all, t, was := notes, told, Tally(done, raised, Line());
      RaisingStarts(all, t, start, base, was, handler);
      var notno := start;
      while notno < |notes| && notes[notno].pos <= wrbufpos
        invariant Valid() && start <= notno <= |notes| == |all| && told == (if notno <= t then t else notno) <= |notes|
        invariant if tls then notno == told && notes[notno..] == all[notno..] else notes == all
        invariant Raising(all, t, start, notno, base, was, Tally(done, raised, Line()), handler)
      {
        if tls { assert notes[notno] == notes[notno..][0] == all[notno..][0]; }
        assert all[notno + 1..] == all[notno..][1..] && notes[notno + 1..] == notes[notno..][1..];
        RaisingMore(all, t, start, notno, base, was, Tally(done, raised, Line()), handler);
        RaiseOne(notno, handler);
        notno := notno + 1;
      }
      RaisingIs(all, t, start, notno, base, was, Tally(done, raised, Line()), handler);
    }

    /** The buffer is written: it is empty again. */
    method Reset()
      requires Valid() && wrbufpos == wrbuflen && told == |notes|
      modifies this`wrbuflen, this`wrbufpos, this`notes, this`told, this`base
      ensures Valid() && wrbuflen == wrbufpos == 0 && notes == [] && told == 0
    {
      hide Queued, QueuedDues;
      base := base + wrbuflen;
      wrbuflen, wrbufpos, notes, told := 0, 0, [], 0;
    }

    /** How much one write can take. */
    ghost function Offered(): (n: nat)
      requires Shaped()
      reads this, wrbuf
      ensures n <= |Pending()|
    {
      if wrbuflen > 0 then wrbuflen - wrbufpos else if |Pending()| <= WRBUFSZ then |Pending()| else WRBUFSZ
    }

    /** The next write starts with a buffer filled anew. */
    ghost predicate Refills()
      reads this
    {
      wrbuflen == 0 && recs != []
    }

    /** The records, and the notifications of the buffer, that the next write starts with. */
    ghost function FilledLine(): Queue
      requires Shaped()
      reads this, wrbuf
    {
      if Refills() then Line().(recs := Left(recs, WRBUFSZ)) else Line()
    }

    ghost function FilledNotes(): seq<Due>
      requires Shaped()
      reads this, wrbuf
    {
      if Refills() then TakenDues(recs, WRBUFSZ, base) else OpenNotes()
    }

    /** The notifications of that buffer that were raised before and will be again. */
    ghost function Repeats(): seq<Due>
      requires Shaped()
      reads this, wrbuf
    {
      if tls || Refills() then [] else NoteDues(notes[0..told], base)
    }

    /** An outcome the layer below can have. */
    predicate Possible(outcome: Outcome) {
      outcome.WouldBlock? ==> (outcome.wants.Nothing? <==> !tls)
    }

    /**
     What a write does. It takes the front of what is pending. Notes are dropped exactly
     if the buffer is filled anew while notes of an empty one are open. The open
     notifications whose bytes are out are raised, after those repeated: without TLS all
     that were raised of the same buffer. What the handler sends in answer is queued, as
     far as the queue goes.
     */
    twostate predicate Writes(outcome: Outcome, handler: Id -> seq<Request>)
      requires old(Valid()) && Valid()
      reads this, wrbuf
    {
      && dropped == old(dropped) + (if old(Refills()) then old(OpenNotes()) else [])
      && writest == (if outcome.Wrote? then Nothing else outcome.wants)
      && if outcome.WouldBlock? then Holds() else Passes(Least(outcome.quota, old(Offered())), handler)
    }

    /** The buffer may be filled, and nothing goes out. */
    twostate predicate Holds()
      requires old(Valid()) && Valid()
      reads this, wrbuf
    {
      && written == old(written) && raised == old(raised) && done == old(done) && Line() == old(FilledLine())
      && Pending() == old(Pending()) && wrbuflen - wrbufpos == old(Offered()) && OpenNotes() == old(FilledNotes())
    }

    /** `n` bytes go out. */
    twostate predicate Passes(n: nat, handler: Id -> seq<Request>)
      requires old(Valid()) && Valid()
      reads this, wrbuf
    {
      && n <= |old(Pending())| && written == old(written) + old(Pending())[..n]
      && Told(old(FilledNotes()), old(Repeats()), old(done), done, old(raised), raised, |written|)
      && Line() == AllEnqueued(old(FilledLine()), Answers(handler, raised[|old(raised)|..]))
      && if n < old(Offered()) then
           wrbuflen - wrbufpos == old(Offered()) - n && OpenNotes() == old(FilledNotes())[|done| - |old(done)|..]
         else wrbuflen == 0 && notes == [] && |done| - |old(done)| == |old(FilledNotes())|
    }

    /** Nothing happens. */
    twostate predicate Idle()
      requires old(Valid()) && Valid()
      reads this, wrbuf
    {
      && Line() == old(Line()) && written == old(written) && raised == old(raised) && done == old(done)
      && dropped == old(dropped) && Pending() == old(Pending()) && wrbuflen == old(wrbuflen)
      && OpenNotes() == old(OpenNotes())
    }

    /**
     dowrite, when the layer below takes at most `quota` bytes, and as its callers
     call it: with something to write, or because TLS can read again.
     */
    method DoWrite(outcome: Outcome, handler: Id -> seq<Request>)
      requires Valid() && Possible(outcome) && (recs != [] || wrbuflen > 0 || writest.ToRead?)
      modifies this, wrbuf
      ensures Valid() && Writes(outcome, handler)
      ensures (old(empties) ==> empties) && old(accepted) <= accepted && old(promised) <= promised
      ensures Fate(old(Lost()), old(OpenNotes()), old(dropped))
      ensures outcome.Wrote? && outcome.quota < old(Offered()) ==>
                base == old(base) && |done| - told == |old(done)| - if old(Refills()) then 0 else old(told)
      ensures Silent(handler) ==> Line() == old(FilledLine())
      ensures old(wrbuflen) == 0 && old(Offered()) < WRBUFSZ ==> old(FilledLine()).recs == []
    {
      hide Queued, QueuedDues, NoteDues, NotesOk, Marked, AllOut, Positive, NoEmpty, Once, Repeatable, Accounted,
        Left, TakenDues, AllEnqueued, Answers, Told, Sender.FilledLine, Sender.FilledNotes, Sender.Repeats,
        Sender.Raised, Sender.Offered, Sender.Pending, Sender.OpenNotes;
      Fill();
      var notno := FirstNote();
      match outcome
      case Wrote(quota) =>
        ghost var before := raised;
        Deliver(Least(quota, wrbuflen - wrbufpos), notno, handler);
        EnqueuedGrows(old(FilledLine()), Answers(handler, raised[|before|..]));
        if Silent(handler) { NoAnswers(handler, raised[|before|..]); NoRequests(old(FilledLine())); }
      case WouldBlock(wants) =>
        Waiting(wants);
    }

    /** What the TLS layer answered. */
    method Waiting(wants: Wants)
      requires Valid() && (!tls ==> wants.Nothing?)
      modifies this`writest
      ensures Valid() && writest == wants
      ensures Pending() == old(Pending()) && OpenNotes() == old(OpenNotes()) && Line() == old(Line())
    {
      hide Queued, QueuedDues, NoteDues, NotesOk, Marked, AllOut, Positive, NoEmpty, Once, Repeatable, Accounted;
      writest := wants;
    }

    method Fill()
      requires Valid()
      modifies this`recs, this`wrbuflen, this`notes, this`told, this`dropped, wrbuf
      ensures Valid() && Pending() == old(Pending()) && wrbuflen - wrbufpos == old(Offered())
      ensures dropped == old(dropped) + if old(Refills()) then old(OpenNotes()) else []
      ensures told == if old(Refills()) then 0 else old(told)
      ensures old(wrbuflen) == 0 && old(Offered()) < WRBUFSZ ==> recs == []
      ensures Line() == old(FilledLine()) && OpenNotes() == old(FilledNotes()) && Raised() == old(Repeats())
    {
      hide Queued, QueuedDues, NoteDues, NotesOk, Marked, AllOut, Positive, NoEmpty, Once, Repeatable, Accounted,
        Left, TakenDues;
      QueuedNone(recs);
      NoneTold(notes, told, base);
      if recs != [] && wrbuflen == 0 {
        Gather();
        NoneTold(notes, 0, base);
      }
    }

    /** What a write raises again. */
    ghost function Raised(): seq<Due>
      requires told <= |notes|
      reads this
    {
      NoteDues(notes[if tls then told else 0..told], base)
    }

    /** A successful write. */
    method Deliver(n: nat, notno: nat, handler: Id -> seq<Request>)
      requires Valid() && n <= wrbuflen - wrbufpos && notno == if tls then told else 0
      modifies this`recs, this`accepted, this`promised, this`empties, this`notes, this`raised, this`done, this`told
      modifies this`wrbuflen, this`wrbufpos, this`base, this`written, this`writest
      ensures Valid() && writest.Nothing? && written == old(written) + old(Pending())[..n] && old(raised) <= raised
      ensures Told(old(OpenNotes()), old(Raised()), old(done), done, old(raised), raised, |written|)
      ensures Line() == AllEnqueued(old(Line()), Answers(handler, raised[|old(raised)|..]))
      ensures n < old(wrbuflen) - old(wrbufpos) ==>
                && wrbuflen == old(wrbuflen) && wrbufpos == old(wrbufpos) + n && base == old(base)
                && |done| - told == |old(done)| - old(told) && OpenNotes() == old(OpenNotes())[|done| - |old(done)|..]
      ensures n == old(wrbuflen) - old(wrbufpos) ==>
                wrbuflen == 0 && notes == [] && |done| - |old(done)| == |old(OpenNotes())|
    {
      hide Queued, QueuedDues, NoteDues, NotesOk, Marked, AllOut, Positive, NoEmpty, Once, Repeatable, Accounted,
        AllEnqueued, Answers, Told, Sender.Raised;
      NoteCount(notes[told..], base);
      PutOut(n, notno, handler);
      if wrbufpos < wrbuflen { return; }
      NotesAllOut(notes, told, wrbuflen);
      Reset();
    }

    /** What was written is put out, and those are told who are due. */
    method PutOut(n: nat, notno: nat, handler: Id -> seq<Request>)
      requires Valid() && n <= wrbuflen - wrbufpos && notno == if tls then told else 0
      modifies this`recs, this`accepted, this`promised, this`empties, this`notes, this`raised, this`done, this`told
      modifies this`wrbufpos, this`written, this`writest
      ensures Valid() && writest.Nothing? && written == old(written) + old(Pending())[..n] && old(raised) <= raised
      ensures Told(old(OpenNotes()), old(Raised()), old(done), done, old(raised), raised, |written|)
      ensures Line() == AllEnqueued(old(Line()), Answers(handler, raised[|old(raised)|..]))
      ensures wrbufpos == old(wrbufpos) + n && |notes| == |old(notes)|
      ensures told < |notes| ==> notes[told].pos > wrbufpos
      ensures |done| - told == |old(done)| - old(told) && |done| - |old(done)| <= |old(OpenNotes())|
      ensures old(told) <= told && OpenNotes() == old(OpenNotes())[|done| - |old(done)|..]
    {
      hide Queued, QueuedDues, NoteDues, NotesOk, Marked, AllOut, Positive, NoEmpty, Once, Repeatable, Accounted,
        AllEnqueued, Answers, Told;
      ghost var all, t, done0, raised0 := notes, told, done, raised;
      NoteCount(notes[told..], base);
      Waiting(Nothing);
      Put(n);
      RaiseNotes(notno, handler);
      assert notes[told..] == all[told..] && (told < |notes| ==> notes[told] == notes[told..][0] == all[told]);
      ToldSplit(all, t, told, base, notno, done0, done, raised0, raised, |written|);
    }

    // ----- Who calls dowrite -----

    /** writeConnection, on a connected socket: with nothing to write, it forgets what TLS was waiting for. */
    method WriteReady(outcome: Outcome, handler: Id -> seq<Request>)
      requires Valid() && Possible(outcome)
      modifies this, wrbuf
      ensures Valid() && (old(empties) ==> empties) && old(accepted) <= accepted && old(promised) <= promised
      ensures Fate(old(Lost()), old(OpenNotes()), old(dropped))
      ensures if old(recs != [] || wrbuflen > 0) then Writes(outcome, handler)
              else Idle() && writest.Nothing? && (OpenNotes() != [] ==> Lost())
    {
      hide Queued, QueuedDues, NoteDues, NotesOk, Marked, AllOut, Positive, NoEmpty, Once, Repeatable, Accounted,
        Sender.Writes, Sender.Idle, Sender.Pending;
      if recs == [] && wrbuflen == 0 { Forget(); } else { DoWrite(outcome, handler); }
    }

    method Forget()
      requires Valid() && recs == [] && wrbuflen == 0
      modifies this`writest
      ensures Valid() && Idle() && writest.Nothing? && (OpenNotes() != [] ==> Lost())
      ensures Fate(old(Lost()), old(OpenNotes()), old(dropped))
    {
      hide Queued, QueuedDues, NoteDues, NotesOk, Marked, AllOut, Positive, NoEmpty, Once, Repeatable, Accounted,
        Sender.Pending;
      Waiting(Nothing);
      NoteCount(notes[told..], base);
    }

    /** tryWrite; `registered` is whether the socket is watched for writing. */
    method EventsDone(registered: bool, outcome: Outcome, handler: Id -> seq<Request>)
      requires Valid() && Possible(outcome)
      modifies this, wrbuf
      ensures Valid() && (old(empties) ==> empties) && old(accepted) <= accepted && old(promised) <= promised
      ensures Fate(old(Lost()), old(OpenNotes()), old(dropped))
      ensures if !registered && old(recs != [] || wrbuflen > 0) then Writes(outcome, handler)
              else Idle() && writest == old(writest)
    {
      hide Queued, QueuedDues, NoteDues, NotesOk, Marked, AllOut, Positive, NoEmpty, Once, Repeatable, Accounted,
        Sender.Writes;
      if !registered && (recs != [] || wrbuflen > 0) { DoWrite(outcome, handler); }
    }

    /** readConnection, as far as it concerns sending: it writes if the TLS layer had to read first. */
    method ReadReady(outcome: Outcome, handler: Id -> seq<Request>)
      requires Valid() && Possible(outcome)
      modifies this, wrbuf
      ensures Valid() && (old(empties) ==> empties) && old(accepted) <= accepted && old(promised) <= promised
      ensures Fate(old(Lost()), old(OpenNotes()), old(dropped))
      ensures if old(writest.ToRead?) then Writes(outcome, handler) else Idle() && writest == old(writest)
      ensures old(wrbuflen) == 0 && !old(Lost()) && old(OpenNotes()) != [] && outcome.Wrote? ==>
                done == old(done) + old(OpenNotes()) && raised == old(raised) + old(OpenNotes())
    {
      hide Queued, QueuedDues, NoteDues, NotesOk, Marked, AllOut, Positive, NoEmpty, Once, Repeatable, Accounted,
        Left, TakenDues, AllEnqueued, Answers, Told;
      QueuedNone(recs);
      NoteCount(notes[told..], base);
      ghost var open, done0, raised0 := OpenNotes(), done, raised;
      if writest.ToRead? { DoWrite(outcome, handler); }
      AllTold(open, done0, done, raised0, raised, |written|);
    }

    /**
     Notes of an empty buffer are open, and no caller will write that buffer again:
     there is something else to write, or nothing and TLS is not waiting to read.
     */
    ghost predicate Lost()
      reads this
    {
      wrbuflen == 0 && told < |notes| && (recs != [] || !writest.ToRead?)
    }

    /** Lost notes stay open and lost, or are dropped. */
    ghost predicate Fate(lost: bool, open: seq<Due>, dropped0: seq<Due>)
      reads this
    {
      && dropped0 <= dropped
      && (lost ==> (Lost() && OpenNotes() == open && dropped == dropped0) || dropped0 + open <= dropped)
    }

    // ----- The end of a connection -----

    /** dataSent for one notification more, after `last`. */
    method Tell(ready: bool, handler: Id -> seq<Request>, id: Id, ghost due: Due, ghost q: Queue, ghost last: seq<Due>)
      requires Valid() && due.id == id && Line() == AllEnqueued(q, if ready then Answers(handler, last) else [])
      modifies this`recs, this`accepted, this`promised, this`empties
      ensures Valid() && old(recs) <= recs
      ensures Line() == AllEnqueued(q, if ready then Answers(handler, last + [due]) else [])
    {
      hide Valid, AllEnqueued, Answers;
      if ready {
        OneMoreAnswer(q, handler, last, due);
        EnqueuedGrows(Line(), handler(id));
        Callback(handler(id));
      }
    }

    method TellNotes(ready: bool, handler: Id -> seq<Request>) returns (ghost last: seq<Due>)
      requires Valid()
      modifies this`recs, this`accepted, this`promised, this`empties
      ensures Valid() && last == Raised() + OpenNotes()
      ensures Line() == AllEnqueued(old(Line()), if ready then Answers(handler, last) else [])
    {
      hide Queued, QueuedDues, NoteDues, NotesOk, AllOut, Positive, NoEmpty, Once, Repeatable, Accounted, AllEnqueued,
        Answers, DueAt;
      last := [];
      ghost var start := if tls then told else 0;
      NoneTold(notes, start, base);
      NoAnswerYet(Line(), handler);
      for notno := 0 to |notes|
        invariant Valid() && last == NoteDues(notes[start..if notno <= start then start else notno], base)
        invariant Line() == AllEnqueued(old(Line()), if ready then Answers(handler, last) else [])
      {
        if notes[notno].id != 0 {
          DueHere(notes[notno], base);
          Tell(ready, handler, notes[notno].id, DueAt(notes[notno], base), old(Line()), last);
          ToldMore(notes, start, notno, base);
          last := last + [DueAt(notes[notno], base)];
        }
      }
      NotesJoined(notes, start, told, base);
    }

    method TellRecords(ready: bool, handler: Id -> seq<Request>, ghost q: Queue, ghost notesTold: seq<Due>)
      returns (ghost last: seq<Due>)
      requires Valid() && Line() == AllEnqueued(q, if ready then Answers(handler, notesTold) else [])
      modifies this`recs, this`accepted, this`promised, this`empties
      ensures Valid() && last == notesTold + QueuedDues(recs, base + wrbuflen)
      ensures Line() == AllEnqueued(q, if ready then Answers(handler, last) else [])
    {
      hide Queued, QueuedDues, NoteDues, NotesOk, Marked, AllOut, Positive, NoEmpty, Once, Repeatable, Accounted,
        AllEnqueued, Answers, RecordsOk;
      ghost var at := base + wrbuflen;
      last := notesTold;
      NoRecords(recs, at, notesTold);
      var recno := 0;
      while recno < |recs|
        invariant Valid() && recno <= |recs| && RecordsOk(recs[..recno])
        invariant last == notesTold + QueuedDues(recs[..recno], at)
        invariant Line() == AllEnqueued(q, if ready then Answers(handler, last) else [])
        decreases NWRITERECS - recno
      {
        var id := recs[recno].id;
        ghost var front := recs[..recno + 1];
        RecordIsOk(recs, recno);
        ghost var due := OneMoreRecord(recs, recno, at, notesTold);
        if id != 0 { Tell(ready, handler, id, due, q, last); last := last + [due]; }
        assert recs[..recno + 1] == front;
        recno := recno + 1;
      }
      assert recs[..recno] == recs;
    }

    /**
     The first part of PSC_Connection_destroy: whatever is open is raised, and without
     TLS what was raised of the same buffer again; so, by the account in `Valid`, every
     notification promised, answers included, has been raised then or was dropped.
     */
    method Destroy(ready: bool, handler: Id -> seq<Request>) returns (ghost last: seq<Due>)
      requires Valid()
      modifies this`recs, this`accepted, this`promised, this`empties
      ensures Valid() && last == Raised() + Open()
      ensures Line() == AllEnqueued(old(Line()), if ready then Answers(handler, last) else [])
    {
      hide Queued, QueuedDues, NoteDues, NotesOk, Marked, AllOut, Positive, NoEmpty, Once, Repeatable, Accounted,
        AllEnqueued, Answers;
      last := TellNotes(ready, handler);
      last := TellRecords(ready, handler, old(Line()), last);
      Regroup(Raised(), OpenNotes(), QueuedDues(recs, base + wrbuflen));
    }

    method Act(action: Action, handler: Id -> seq<Request>)
      requires Valid() && ActionOk(tls, action)
      modifies this, wrbuf
      ensures Valid() && (old(empties) ==> empties) && old(accepted) <= accepted && old(promised) <= promised
      ensures Fate(old(Lost()), old(OpenNotes()), old(dropped))
    {
      hide Valid;
      match action
      case Send(buf, id, ready) => var _ := SendAsync(buf, id, ready);
      case OnWritable(outcome) => WriteReady(outcome, handler);
      case OnReadable(outcome) => ReadReady(outcome, handler);
      case OnEventsDone(registered, outcome) => EventsDone(registered, outcome, handler);
    }
  }

  datatype Action =
    | Send(buf: Bytes, id: Id, ready: bool)
    | OnWritable(outcome: Outcome)
    | OnReadable(outcome: Outcome)
    | OnEventsDone(registered: bool, outcome: Outcome)

  ghost predicate ActionOk(tls: bool, a: Action) {
    !a.Send? && a.outcome.WouldBlock? ==> (a.outcome.wants.Nothing? <==> !tls)
  }

  /**
   Any run of sends and writes, by any schedule of partial writes. Every promised
   notification was raised, is open or was dropped; none is dropped, or lost, if none
   was promised for an empty buffer. Once the run is drained, every accepted byte was
   written, in order, and then every notification has been raised: with TLS each
   once, and in order.
   */
  method Run(s: Sender, actions: seq<Action>, handler: Id -> seq<Request>)
    requires s.Valid() && forall i :: 0 <= i < |actions| ==> ActionOk(s.tls, actions[i])
    modifies s, s.wrbuf
    ensures s.Valid() && old(s.accepted) <= s.accepted && (old(s.empties) ==> s.empties)
    ensures s.written <= s.accepted && AllOut(s.raised, |s.written|)
    ensures multiset(s.promised) == multiset(s.done) + multiset(s.Open()) + multiset(s.dropped)
    ensures !s.empties ==> s.dropped == [] && !s.Lost()
    ensures s.recs == [] && s.wrbuflen == 0 ==> s.written == s.accepted
    ensures s.recs == [] && s.wrbuflen == 0 && !s.empties ==>
              (if s.tls then s.raised == s.promised else forall d :: d in s.raised <==> d in s.promised)
  {
    RunAll(s, actions, handler);
    if s.wrbuflen == 0 && !s.empties { NoneOpen(s.notes, s.told, s.base); }
  }

  method RunAll(s: Sender, actions: seq<Action>, handler: Id -> seq<Request>)
    requires s.Valid() && forall i :: 0 <= i < |actions| ==> ActionOk(s.tls, actions[i])
    modifies s, s.wrbuf
    ensures s.Valid() && old(s.accepted) <= s.accepted && (old(s.empties) ==> s.empties)
    ensures s.Fate(old(s.Lost()), old(s.OpenNotes()), old(s.dropped))
  {
    ghost var lost, open, dropped := s.Lost(), s.OpenNotes(), s.dropped;
    hide Sender.Valid, Sender.Lost, Sender.OpenNotes;
    for i := 0 to |actions|
      invariant s.Valid() && old(s.accepted) <= s.accepted && (old(s.empties) ==> s.empties)
      invariant s.Fate(lost, open, dropped)
    {
      s.Act(actions[i], handler);
    }
  }

  /** What is lost is never raised: after any run it is still open and lost, or it was dropped. */
  method LostForGood(s: Sender, actions: seq<Action>, handler: Id -> seq<Request>)
    requires s.Valid() && s.Lost() && forall i :: 0 <= i < |actions| ==> ActionOk(s.tls, actions[i])
    modifies s, s.wrbuf
    ensures s.Valid()
    ensures (s.Lost() && s.OpenNotes() == old(s.OpenNotes())) || old(s.dropped + s.OpenNotes()) <= s.dropped
  {
    RunAll(s, actions, handler);
  }

  /** Without TLS a partial write makes the next one repeat a notification. */
  method PlainRepeats() returns (s: Sender)
    ensures s.Valid() && !s.tls && !s.empties && |s.promised| == 2 && |s.raised| == 3
  {
    hide Queued, QueuedDues, NoteDues, AllOut, NoEmpty, Positive, NotesOk, Marked, RecordsOk, Rest, Once, Repeatable,
      Left, TakenDues, AllEnqueued, Answers, Told, Accounted;
    s := TwoQueued();
    FirstPartOut(s);
    NoteCount(s.notes[0..s.told], s.base);
    ghost var open, again, done0, raised0 := s.OpenNotes(), s.Repeats(), s.done, s.raised;
    s.DoWrite(Wrote(1), id => []);
    NoneLeft(s.notes, s.told, s.recs, s.base, s.wrbuflen);
    OneAgain(open, again, done0, s.done, raised0, s.raised, |s.written|, s.promised, s.dropped);
  }

  lemma OneAgain(open: seq<Due>, again: seq<Due>, done: seq<Due>, done': seq<Due>, raised: seq<Due>, raised': seq<Due>,
                 written: nat, promised: seq<Due>, dropped: seq<Due>)
    requires Told(open, again, done, done', raised, raised', written) && |raised| == |done| && |again| == 1
    requires Accounted(promised, done', [], dropped) && dropped == []
    ensures |raised'| == |promised| + 1
  {}

  method TwoQueued() returns (s: Sender)
    ensures fresh(s) && fresh(s.wrbuf) && s.Valid() && !s.tls && !s.empties && s.Offered() == 2
    ensures s.promised == [Due(1, 1), Due(2, 2)] && s.done == s.raised == []
    ensures s.wrbuflen == 0 && |s.recs| == 2 && s.base == 0
  {
    hide Queued, QueuedDues, NoteDues, AllOut, NoEmpty, Positive, NotesOk, Marked, RecordsOk, Rest, Accounted;
    s := new Sender(false);
    var _ := s.SendAsync([1], 1, true);
    var _ := s.SendAsync([2], 2, true);
    assert |s.accepted| == 2;
  }

  /** The first of the two bytes is out, and its sender knows. */
  method FirstPartOut(s: Sender)
    requires s.Valid() && !s.tls && !s.empties && s.base == 0 && s.done == s.raised == []
    requires s.promised == [Due(1, 1), Due(2, 2)] && s.wrbuflen == 0 && |s.recs| == 2 && s.Offered() == 2
    modifies s, s.wrbuf
    ensures s.Valid() && !s.empties && s.promised == old(s.promised) && s.recs == [] && s.wrbuflen > 0
    ensures s.Offered() == 1 && s.told == |s.done| == |s.raised| == 1
  {
    hide Queued, QueuedDues, NoteDues, AllOut, NoEmpty, Positive, NotesOk, Marked, RecordsOk, Rest, Once, Repeatable,
      Left, TakenDues, AllEnqueued, Answers, Told, Sender.Pending, Sender.FilledNotes;
    ghost var open := s.FilledNotes();
    s.DoWrite(Wrote(1), id => []);
    NoneQueued(s.recs, s.base + s.wrbuflen, s.OpenNotes());
    assert s.promised == s.done + s.Open() && |s.written| == 1;
    OneTold(open, s.done, s.raised, s.promised);
  }

  lemma NoneQueued(recs: seq<Record>, at: nat, dues: seq<Due>)
    requires RecordsOk(recs)
    ensures recs == [] ==> dues + QueuedDues(recs, at) == dues
  {}

  lemma OneTold(open: seq<Due>, done: seq<Due>, raised: seq<Due>, promised: seq<Due>)
    requires Told(open, [], [], done, [], raised, 1)
    requires promised == [Due(1, 1), Due(2, 2)] == done + open[|done|..]
    ensures |done| == |raised| == 1
  {
    var k := |done|;
    assert done == [] + open[..k] == open[..k] && raised == [] + ([] + open[..k]) == open[..k];
    assert open == open[..k] + open[k..] == promised;
    assert forall i :: 0 <= i < k ==> done[i] == promised[i] && done[i] in open[..k];
    assert k < |open| ==> open[k] == promised[k];
    assert |promised| == 2 && promised[0].offset == 1 && promised[1].offset == 2;
  }

  function Blocked(tls: bool): Outcome {
    WouldBlock(if tls then ToWrite else Nothing)
  }

  method EmptySent(tls: bool, id: Id) returns (s: Sender)
    requires id != 0
    ensures fresh(s) && fresh(s.wrbuf) && s.Valid() && s.tls == tls && s.wrbuflen == 0 && s.recs != []
    ensures s.promised == [Due(id, 0)] && s.raised == s.done == s.dropped == s.OpenNotes() == []
    ensures s.accepted == s.written == [] && s.base == 0 && s.Offered() == 0
  {
    hide Queued, QueuedDues, AllOut, NoEmpty, Positive, NotesOk, Marked, RecordsOk, Rest, Accounted;
    s := new Sender(tls);
    var _ := s.SendAsync([], id, true);
  }

  /** A notification for an empty buffer whose write blocks, unless the TLS layer waits to read, is lost at once. */
  method EmptySendLost(tls: bool, id: Id) returns (s: Sender)
    requires id != 0
    ensures fresh(s) && fresh(s.wrbuf) && s.Valid() && s.tls == tls && s.Lost() && s.OpenNotes() == [Due(id, 0)]
    ensures s.promised == [Due(id, 0)] && s.raised == s.done == s.dropped == [] && s.recs == []
    ensures s.accepted == [] && s.Offered() == 0
  {
    hide Queued, QueuedDues, NoteDues, AllOut, NoEmpty, Positive, NotesOk, Marked, RecordsOk, Rest, Once, Repeatable,
      Accounted, Left, TakenDues, AllEnqueued, Answers, Told, Sender.Pending, Sender.FilledNotes, Sender.Repeats;
    s := EmptySent(tls, id);
    s.DoWrite(Blocked(tls), id => []);
    AllOpen(s.promised, s.done, s.notes, s.told, s.recs, s.base, s.wrbuflen, s.dropped);
  }

  /** And if more is sent, it is dropped. */
  method EmptySendDropped(tls: bool, id: Id) returns (s: Sender)
    requires id != 0
    ensures s.Valid() && s.tls == tls && s.promised == [Due(id, 0), Due(2, 1)]
    ensures s.raised == [] && s.dropped == [Due(id, 0)] && s.Open() == [Due(2, 1)]
  {
    hide Queued, QueuedDues, NoteDues, AllOut, NoEmpty, Positive, NotesOk, Marked, RecordsOk, Rest, Accounted, Once,
      Repeatable;
    s := EmptySendLost(tls, id);
    var _ := s.SendAsync([2], 2, true);
    s.DoWrite(Blocked(tls), id => []);
    OnlyOpen(s.promised, s.done, s.Open(), s.dropped);
  }

  lemma OnlyOpen(promised: seq<Due>, done: seq<Due>, open: seq<Due>, dropped: seq<Due>)
    requires Accounted(promised, done, open, dropped) && done == [] && |promised| == 2 && dropped == [promised[0]]
    ensures open == [promised[1]]
  {
    assert promised == [promised[0]] + [promised[1]];
    assert multiset(promised) == multiset{promised[0], promised[1]};
    assert multiset(open) == multiset(promised) - multiset{promised[0]} == multiset{promised[1]};
    assert |open| == |multiset(open)| == 1 && open[0] in multiset(open);
  }

  lemma AllOpen(promised: seq<Due>, done: seq<Due>, notes: seq<Note>, told: nat, recs: seq<Record>, base: nat, len: nat,
                dropped: seq<Due>)
    requires told <= |notes| && RecordsOk(recs) && recs == [] && done == [] && dropped == []
    requires Accounted(promised, done, NoteDues(notes[told..], base) + QueuedDues(recs, base + len), dropped)
    ensures NoteDues(notes[told..], base) == promised && |promised| == |notes| - told
  {}

  lemma NoneLeft(notes: seq<Note>, told: nat, recs: seq<Record>, base: nat, len: nat)
    requires told <= |notes| && RecordsOk(recs)
    ensures notes == [] && recs == [] ==> NoteDues(notes[told..], base) + QueuedDues(recs, base + len) == []
  {}

  lemma NoAnswerYet(q: Queue, handler: Id -> seq<Request>)
    ensures AllEnqueued(q, []) == q && Answers(handler, []) == []
  {}

  lemma NoRecords(recs: seq<Record>, at: nat, dues: seq<Due>)
    ensures RecordsOk(recs[..0]) && dues + QueuedDues(recs[..0], at) == dues
  {}

  lemma NotesJoined(notes: seq<Note>, start: nat, told: nat, base: nat)
    requires start <= told <= |notes|
    ensures NoteDues(notes[start..], base) == NoteDues(notes[start..told], base) + NoteDues(notes[told..], base)
    ensures notes[start..] == notes[start..|notes|]
  {}

  lemma OneMoreRecord(recs: seq<Record>, k: nat, at: nat, before: seq<Due>) returns (due: Due)
    requires RecordsOk(recs) && k < |recs| && RecordsOk(recs[..k])
    ensures RecordsOk(recs[..k + 1]) && due.id == recs[k].id
    ensures before + QueuedDues(recs[..k + 1], at) ==
            (before + QueuedDues(recs[..k], at)) + if recs[k].id != 0 then [due] else []
  {
    hide Queued, QueuedDues;
    var front, r := recs[..k], recs[k];
    assert recs[..k + 1] == front + [r];
    QueuedAppend(front, r);
    DuesAppend(front, r, at);
    due := Due(r.id, at + |Queued(front)| + |Rest(r)|);
    Regroup(before, QueuedDues(front, at), DueOf(r.id, due.offset));
  }

  lemma NotesAllOut(notes: seq<Note>, told: nat, len: nat)
    requires NotesOk(notes, len) && told <= |notes| && (told < |notes| ==> notes[told].pos > len)
    ensures told == |notes|
  {}

  function Least(a: nat, b: nat): nat {
    if a <= b then a else b
  }

  /** The open notifications that are due, and no others, are raised, after those repeated. */
  ghost predicate Told(open: seq<Due>, again: seq<Due>, done: seq<Due>, done': seq<Due>, raised: seq<Due>,
                       raised': seq<Due>, written: nat)
  {
    && |done| <= |done'| <= |done| + |open|
    && var k := |done'| - |done|;
    && done' == done + open[..k] && raised' == raised + (again + open[..k])
    && (forall d :: d in open[..k] ==> d.offset <= written) && (k < |open| ==> open[k].offset > written)
  }

  lemma ToldSplit(all: seq<Note>, t: nat, told: nat, base: nat, start: nat, done: seq<Due>, done': seq<Due>,
                  raised: seq<Due>, raised': seq<Due>, written: nat)
    requires start <= t <= told <= |all| && AllOut(done', written)
    requires done' == done + NoteDues(all[t..told], base) && raised' == raised + NoteDues(all[start..told], base)
    requires told < |all| ==> base + all[told].pos > written
    ensures Told(NoteDues(all[t..], base), NoteDues(all[start..t], base), done, done', raised, raised', written)
    ensures raised <= raised' && raised'[|raised|..] == NoteDues(all[start..told], base)
    ensures |done'| - |done| == told - t && NoteDues(all[told..], base) == NoteDues(all[t..], base)[told - t..]
  {
    var open, more := NoteDues(all[t..], base), NoteDues(all[t..told], base);
    assert more == open[..told - t];
    assert NoteDues(all[start..told], base) == NoteDues(all[start..t], base) + more;
    assert forall d :: d in more ==> d in done';
  }

  lemma AllTold(open: seq<Due>, done: seq<Due>, done': seq<Due>, raised: seq<Due>, raised': seq<Due>, written: nat)
    ensures Told(open, [], done, done', raised, raised', written) && |done'| - |done| == |open| ==>
              done' == done + open && raised' == raised + open
  {
    assert open[..|open|] == open && [] + open == open;
  }

  lemma NoteCount(notes: seq<Note>, base: nat)
    ensures |NoteDues(notes, base)| == |notes|
  {}

  lemma NoRequests(q: Queue)
    ensures AllEnqueued(q, []) == q
  {}

  /** The handler sends nothing. */
  ghost predicate Silent(handler: Id -> seq<Request>) {
    forall id :: handler(id) == []
  }

  ghost predicate Same(recs: seq<Record>, recs': seq<Record>, promised: seq<Due>, promised': seq<Due>,
                       empties: bool, empties': bool) {
    recs == recs' && promised == promised' && empties == empties'
  }

  lemma DueHere(note: Note, base: nat)
    ensures DueAt(note, base).offset == base + note.pos && DueAt(note, base).id == note.id
  {}

  lemma StrikeOne(notes: seq<Note>, i: nat, told: nat, tls: bool, len: nat)
    requires i < |notes| && NotesOk(notes, len) && Marked(notes, told, tls) && (if tls then i == told else i <= told)
    ensures !tls ==> forall t :: Marked(notes, t, tls)
    ensures tls ==> var struck := notes[i := Note(0, notes[i].pos)];
                    NotesOk(struck, len) && Marked(struck, told + 1, tls) && struck[i + 1..] == notes[i + 1..]
  {}

  lemma AllOutMore(dues: seq<Due>, d: Due, written: nat)
    requires AllOut(dues, written) && d.offset <= written
    ensures AllOut(dues + [d], written)
  {}

  lemma NotesGrow(notes: seq<Note>, len: nat, len': nat, id: Id)
    requires NotesOk(notes, len) && len <= len'
    ensures NotesOk(notes, len') && NotesOk(notes + [Note(id, len')], len')
    ensures id != 0 && Asking(notes) ==> Asking(notes + [Note(id, len')])
  {}

  lemma NextNote(notes: seq<Note>, told: nat, base: nat, queued: seq<Due>)
    requires told < |notes|
    ensures NoteDues(notes[told..], base) + queued
            == [DueAt(notes[told], base)] + (NoteDues(notes[told + 1..], base) + queued)
  {
    var due, rest := DueAt(notes[told], base), NoteDues(notes[told + 1..], base);
    assert NoteDues(notes[told..], base) == [due] + rest;
    Regroup([due], rest, queued);
  }

  lemma NoneTold(notes: seq<Note>, t: nat, base: nat)
    requires t <= |notes|
    ensures NoteDues(notes[t..t], base) == []
  {}

  /** What raising notifications changes. */
  datatype Tally = Tally(done: seq<Due>, raised: seq<Due>, line: Queue)

  /** The notes from `start` up to `n` have been raised, those from `t` on for the first time. */
  ghost predicate Raising(notes: seq<Note>, t: nat, start: nat, n: nat, base: nat, was: Tally, now: Tally,
                          handler: Id -> seq<Request>)
  {
    && start <= t <= |notes| && start <= n <= |notes|
    && now.done == was.done + NoteDues(notes[t..if n <= t then t else n], base)
    && now.raised == was.raised + NoteDues(notes[start..n], base)
    && now.line == AllEnqueued(was.line, Answers(handler, NoteDues(notes[start..n], base)))
  }

  lemma RaisingStarts(notes: seq<Note>, t: nat, start: nat, base: nat, was: Tally, handler: Id -> seq<Request>)
    requires start <= t <= |notes|
    ensures Raising(notes, t, start, start, base, was, was, handler)
  {
    NoneTold(notes, start, base);
    NoneTold(notes, t, base);
  }

  lemma RaisingMore(notes: seq<Note>, t: nat, start: nat, n: nat, base: nat, was: Tally, now: Tally,
                    handler: Id -> seq<Request>)
    requires Raising(notes, t, start, n, base, was, now, handler) && n < |notes|
    ensures var d := DueAt(notes[n], base);
            var now' := Tally(now.done + (if n >= t then [d] else []), now.raised + [d],
                              AllEnqueued(now.line, handler(notes[n].id)));
            Raising(notes, t, start, n + 1, base, was, now', handler)
  {
    hide NoteDues, AllEnqueued, Answers;
    if n >= t { ToldMore(notes, t, n, base); }
    ToldMore(notes, start, n, base);
    OneMoreAnswer(was.line, handler, NoteDues(notes[start..n], base), DueAt(notes[n], base));
  }

  lemma RaisingIs(notes: seq<Note>, t: nat, start: nat, n: nat, base: nat, was: Tally, now: Tally,
                  handler: Id -> seq<Request>)
    requires Raising(notes, t, start, n, base, was, now, handler) && n >= t
    ensures now.done == was.done + NoteDues(notes[t..n], base)
    ensures now.raised == was.raised + NoteDues(notes[start..n], base)
    ensures now.line == AllEnqueued(was.line, Answers(handler, NoteDues(notes[start..n], base)))
  {}

  /** What one more note adds to those raised. */
  lemma ToldMore(notes: seq<Note>, was: nat, told: nat, base: nat)
    requires was <= told < |notes|
    ensures NoteDues(notes[was..told + 1], base) == NoteDues(notes[was..told], base) + [DueAt(notes[told], base)]
  {}

  lemma ToldCount(notes: seq<Note>, t: nat, told: nat, base: nat)
    requires t <= told <= |notes|
    ensures |NoteDues(notes[t..told], base)| == told - t
    ensures told == |notes| ==> notes[t..told] == notes[t..]
  {}

  /** No record asks for a notification with nothing left to send. */
  ghost predicate NoEmpty(recs: seq<Record>) {
    forall i :: 0 <= i < |recs| && recs[i].id != 0 ==> recs[i].pos < |recs[i].buf|
  }

  ghost predicate Positive(notes: seq<Note>) {
    forall i :: 0 <= i < |notes| ==> notes[i].pos > 0
  }

  ghost predicate Asking(notes: seq<Note>) {
    forall i :: 0 <= i < |notes| ==> notes[i].id != 0
  }

  lemma NotesAppend(notes: seq<Note>, n: Note, at: nat)
    ensures NoteDues(notes + [n], at) == NoteDues(notes, at) + [Due(n.id, at + n.pos)]
  {}

  lemma PutSplit(written: Bytes, chunk: Bytes, left: Bytes, queued: Bytes)
    ensures written + ((chunk + left) + queued) == (written + chunk) + (left + queued)
  {}

  lemma StartsEmpty(recs: seq<Record>, base: nat)
    requires RecordsOk(recs)
    ensures NoteDues([], base) + QueuedDues(recs, base) == QueuedDues(recs, base)
  {}

  lemma NoEmptyAppend(recs: seq<Record>, buf: Bytes, id: Id)
    ensures Rest(Record(buf, 0, id)) == buf
    ensures NoEmpty(recs) && !(id != 0 && buf == []) ==> NoEmpty(recs + [Record(buf, 0, id)])
  {}

  lemma NoneOpen(notes: seq<Note>, told: nat, base: nat)
    requires NotesOk(notes, 0) && told <= |notes|
    ensures Positive(notes) ==> told == |notes|
    ensures told == |notes| ==> NoteDues(notes[told..], base) == []
    ensures NotesOk([], 0) && Asking([]) && Positive([]) && NoteDues([], base) == []
  {
    if told < |notes| { assert notes[told].pos <= 0; }
  }

  lemma GatheredMarked(notes: seq<Note>, tls: bool)
    ensures Asking(notes) ==> Marked(notes, 0, tls)
  {}

  lemma QueuedNone(recs: seq<Record>)
    requires RecordsOk(recs)
    ensures recs == [] ==> Queued(recs) == []
  {}

  lemma GatherPositive(recs: seq<Record>, k: nat, n: nat, notes: seq<Note>, len: nat)
    requires RecordsOk(recs) && k < |recs| && n <= |Rest(recs[k])|
    ensures var r := recs[k];
            var recs' := recs[k := r.(pos := r.pos + n)];
            var more := n == |Rest(r)|;
            var left := recs'[if more then k + 1 else k..];
            var notes' := if more && r.id != 0 then notes + [Note(r.id, len + n)] else notes;
            NoEmpty(recs[k..]) && Positive(notes) ==> NoEmpty(left) && Positive(notes')
  {
    var r := recs[k];
    var recs' := recs[k := r.(pos := r.pos + n)];
    if NoEmpty(recs[k..]) && Positive(notes) {
      forall i | k <= i < |recs| && recs[i].id != 0 ensures recs[i].pos < |recs[i].buf| {
        assert recs[k..][i - k] == recs[i];
      }
    }
  }

  lemma NoneTaken(dues: seq<Due>, base: nat)
    ensures NoteDues([], base) + dues == dues
  {}

  lemma NothingTaken(recs: seq<Record>, room: nat, at: nat, dues: seq<Due>)
    requires RecordsOk(recs)
    ensures recs == [] || room == 0 ==> Left(recs, room) == recs && dues + TakenDues(recs, room, at) == dues
  {}

  lemma TakeLeft(recs: seq<Record>, k: nat, room: nat, notes: seq<Note>, at: nat, len: nat)
    requires k < |recs| && RecordsOk(recs) && room > 0
    ensures var r := recs[k];
            var n := if |Rest(r)| <= room then |Rest(r)| else room;
            var recs' := recs[k := r.(pos := r.pos + n)];
            var more := n == |Rest(r)|;
            var left := recs'[if more then k + 1 else k..];
            var notes' := if more && r.id != 0 then notes + [Note(r.id, len + n)] else notes;
            && RecordsOk(left) && Left(left, room - n) == Left(recs[k..], room)
            && NoteDues(notes', at) + TakenDues(left, room - n, at + (len + n))
               == NoteDues(notes, at) + TakenDues(recs[k..], room, at + len)
  {
    hide NoteDues, Left, TakenDues;
    var r := recs[k];
    var n := if |Rest(r)| <= room then |Rest(r)| else room;
    var recs' := recs[k := r.(pos := r.pos + n)];
    assert recs[k..][0] == r && recs[k..][1..] == recs[k + 1..] == recs'[k + 1..];
    TakeFirst(recs[k..], room, at + len);
    RecordsFrom(recs, k + 1);
    if n == |Rest(r)| {
      NotesAppend(notes, Note(r.id, len + n), at);
      Regroup(NoteDues(notes, at), DueOf(r.id, at + len + n), TakenDues(recs[k + 1..], room - n, at + len + n));
    } else {
      var left := [r.(pos := r.pos + n)] + recs[k + 1..];
      assert recs'[k..] == left;
      NothingTaken(left, 0, at + (len + n), NoteDues(notes, at));
      assert NoteDues(notes, at) + [] == NoteDues(notes, at);
    }
  }

  lemma TakeFirst(recs: seq<Record>, room: nat, at: nat)
    requires recs != [] && RecordsOk(recs) && room > 0
    ensures var r, n := recs[0], |Rest(recs[0])|;
            if n <= room then
              && Left(recs, room) == Left(recs[1..], room - n)
              && TakenDues(recs, room, at) == DueOf(r.id, at + n) + TakenDues(recs[1..], room - n, at + n)
            else Left(recs, room) == [r.(pos := r.pos + room)] + recs[1..] && TakenDues(recs, room, at) == []
  {}

  lemma RecordIsOk(recs: seq<Record>, k: nat)
    requires RecordsOk(recs) && k < |recs|
    ensures recs[k].pos <= |recs[k].buf| && RecordsOk(recs[k..])
  {}

  lemma RecordsFrom(recs: seq<Record>, k: nat)
    requires RecordsOk(recs) && k <= |recs|
    ensures RecordsOk(recs[k..])
  {}

  lemma TakeFrom(recs: seq<Record>, k: nat, n: nat, notes: seq<Note>, at: nat, len: nat)
    requires k < |recs| && RecordsOk(recs) && n <= |Rest(recs[k])|
    ensures var r := recs[k];
            var recs' := recs[k := r.(pos := r.pos + n)];
            var more := n == |Rest(r)|;
            var left := recs'[if more then k + 1 else k..];
            var notes' := if more && r.id != 0 then notes + [Note(r.id, len + n)] else notes;
            && RecordsOk(recs')
            && Queued(recs[k..]) == r.buf[r.pos..r.pos + n] + Queued(left)
            && NoteDues(notes', at) + QueuedDues(left, at + (len + n))
               == NoteDues(notes, at) + QueuedDues(recs[k..], at + len)
  {
    hide Queued, QueuedDues, NoteDues;
    var r := recs[k];
    var recs' := recs[k := r.(pos := r.pos + n)];
    assert recs'[k..] == recs[k..][0 := r.(pos := r.pos + n)] && recs'[k + 1..] == recs[k + 1..] == recs[k..][1..];
    TakeSome(recs[k..], n);
    TakeSomeDues(recs[k..], n, at + len);
    assert r.buf[r.pos..r.pos + n] == Rest(r)[..n];
    if n == |Rest(r)| {
      NotesAppend(notes, Note(r.id, len + n), at);
      Regroup(NoteDues(notes, at), DueOf(r.id, at + len + n), QueuedDues(recs[k + 1..], at + len + n));
    }
  }
}
