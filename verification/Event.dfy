/**
 Events with re-entrant dispatch (event.c): a singly linked list of handlers that
 callbacks may change, by registering and unregistering on the same event, while
 it is being walked.
 */
module Event {
  import opened Common

  /** What registrations are compared by. */
  datatype Handler = Handler(cb: nat, receiver: nat, id: int)

  /** What a callback may do to the event it was called from. */
  datatype Op = Register(h: Handler) | Unregister(h: Handler)

  /** `born` numbers the registrations of an event in their order. */
  class Entry {
    const handler: Handler
    ghost const born: nat
    var next: Entry?

    constructor (handler: Handler, ghost born: nat)
      ensures this.handler == handler && this.born == born && next == null
    {
      this.handler := handler;
      this.born := born;
      next := null;
    }
  }

  function Without<T>(s: seq<T>, i: nat): seq<T>
    requires i < |s|
  {
    s[..i] + s[i + 1..]
  }

  ghost function At(es: seq<Entry>, i: nat): Entry? {
    if i < |es| then es[i] else null
  }

  ghost function After(es: seq<Entry>, i: nat): Entry? {
    At(es, i + 1)
  }

  ghost function Prev(es: seq<Entry>, i: nat): Entry? {
    if 0 < i <= |es| then es[i - 1] else null
  }

  /** No handler twice, and in the order of registration. */
  ghost predicate Ordered(es: seq<Entry>, clock: nat) {
    && (forall i, j :: 0 <= i < j < |es| ==> es[i].born < es[j].born && es[i].handler != es[j].handler)
    && (forall i :: 0 <= i < |es| ==> es[i].born < clock)
  }

  ghost predicate Has(es: seq<Entry>, h: Handler) {
    exists j :: 0 <= j < |es| && es[j].handler == h
  }

  ghost predicate Distinct(es: seq<Entry>) {
    forall i, j :: 0 <= i < j < |es| ==> es[i] != es[j]
  }

  lemma OrderedDistinct(es: seq<Entry>, clock: nat)
    requires Ordered(es, clock)
    ensures Distinct(es)
  {}

  lemma OrderedAppend(es: seq<Entry>, clock: nat, e: Entry)
    requires Ordered(es, clock) && !Has(es, e.handler) && e.born == clock
    ensures Ordered(es + [e], clock + 1) && e !in es
  {}

  lemma OrderedWithout(es: seq<Entry>, clock: nat, i: nat)
    requires Ordered(es, clock) && i < |es|
    ensures Ordered(Without(es, i), clock) && !Has(Without(es, i), es[i].handler) && es[i] !in Without(es, i)
    ensures forall j :: 0 <= j < |es| && es[j].handler == es[i].handler ==> j == i
  {
    var rest := Without(es, i);
    forall j | 0 <= j < |rest| ensures rest[j] == es[if j < i then j else j + 1] {}
  }

  // ----- The list as a plain sequence of handlers -----

  function IndexOf(hs: seq<Handler>, h: Handler): (i: nat)
    requires h in hs
    ensures i < |hs| && hs[i] == h && h !in hs[..i]
  {
    if hs[0] == h then 0 else 1 + IndexOf(hs[1..], h)
  }

  /** Registering appends a handler unless it is there; unregistering removes it. */
  function Apply(hs: seq<Handler>, op: Op): seq<Handler> {
    match op
    case Register(h) => if h in hs then hs else hs + [h]
    case Unregister(h) => if h in hs then Without(hs, IndexOf(hs, h)) else hs
  }

  function ApplyAll(hs: seq<Handler>, ops: seq<Op>): seq<Handler>
    decreases |ops|
  {
    if ops == [] then hs else Apply(ApplyAll(hs, ops[..|ops| - 1]), ops[|ops| - 1])
  }

  /** A list, and the place of the handler that is next in line; without one, dispatch is over. */
  datatype Line = Line(hs: seq<Handler>, next: Option<nat>)

  /** A handler removed in front of the next one moves it up; if it was the next one, its successor is. */
  function MovedUp(next: Option<nat>, i: nat, len: nat): Option<nat> {
    if next.None? then None
    else if i < next.value then Some(next.value - 1)
    else if next.value < len then next else None
  }

  function Move(l: Line, op: Op): Line {
    Line(Apply(l.hs, op),
         if op.Unregister? && op.h in l.hs then MovedUp(l.next, IndexOf(l.hs, op.h), |l.hs| - 1) else l.next)
  }

  function MoveAll(l: Line, ops: seq<Op>): (r: Line)
    ensures r.hs == ApplyAll(l.hs, ops)
    decreases |ops|
  {
    if ops == [] then l else Move(MoveAll(l, ops[..|ops| - 1]), ops[|ops| - 1])
  }

  function Successor(hs: seq<Handler>, n: nat): Option<nat> {
    if n + 1 < |hs| then Some(n + 1) else None
  }

  /**
   What dispatch does from place `next` on, if `k` callbacks ran before: the handlers
   called, and the list in the end.
   */
  datatype Outcome = Outcome(called: seq<Handler>, hs: seq<Handler>)

  function Dispatched(l: Line, id: int, script: seq<seq<Op>>, k: nat): Outcome
    decreases if k < |script| then |script| - k else 0,
              if l.next.Some? && l.next.value < |l.hs| then |l.hs| - l.next.value else 0
  {
    if l.next.None? || l.next.value >= |l.hs| then Outcome([], l.hs)
    else
      var n := l.next.value;
      var after := Line(l.hs, Successor(l.hs, n));
      if l.hs[n].id == id then
        var rest := Dispatched(if k < |script| then MoveAll(after, script[k]) else after, id, script, k + 1);
        Outcome([l.hs[n]] + rest.called, rest.hs)
      else Dispatched(after, id, script, k)
  }

  ghost function Handlers(es: seq<Entry>): seq<Handler> {
    seq(|es|, i requires 0 <= i < |es| => es[i].handler)
  }

  /** The handlers after `n` callbacks. */
  ghost function HandlersAfter(hs: seq<Handler>, script: seq<seq<Op>>, n: nat): seq<Handler> {
    if n == 0 then hs else ApplyAll(HandlersAfter(hs, script, n - 1), OpsAt(script, n - 1))
  }

  /** `entries` is the list; `at` says which of them `handling` is. */
  class Event {
    var first: Entry?
    var last: Entry?
    var handling: Entry?
    ghost var entries: seq<Entry>
    ghost var at: nat
    ghost var clock: nat

    /** The pointers spell `entries`. */
    ghost predicate Linked()
      reads this`entries, this`first, this`last, entries
    {
      && (forall i :: 0 <= i < |entries| ==> entries[i].next == After(entries, i))
      && first == At(entries, 0)
      && last == Prev(entries, |entries|)
    }

    /** A duplicate-free, acyclic list in registration order with a correct `last`; `handling` is never unlinked. */
    ghost predicate Valid()
      reads this, entries
    {
      Ordered(entries, clock) && Linked() && (handling != null ==> at < |entries| && handling == entries[at])
    }

    ghost function InLine(): Line
      reads this
    {
      Line(Handlers(entries), if handling == null then None else Some(at))
    }

    constructor ()
      ensures Valid() && entries == [] && handling == null
    {
      first, last, handling := null, null, null;
      entries, at, clock := [], 0, 0;
    }

    /** findEntry, with its parent if there is one. */
    method FindEntry(h: Handler) returns (e: Entry?, p: Entry?, ghost i: nat)
      requires Valid()
      ensures e == null ==> !Has(entries, h)
      ensures e == null ==> p == null
      ensures e != null ==> i < |entries| && e == entries[i] && e.handler == h
                            && p == Prev(entries, i)
    {
      e, p, i := first, null, 0;
      while e != null && e.handler != h
        invariant i <= |entries| && e == At(entries, i)
        invariant p == Prev(entries, i)
        invariant forall j :: 0 <= j < i ==> entries[j].handler != h
        decreases |entries| - i
      {
        assert e == entries[i];
        p := e;
        e := e.next;
        i := i + 1;
      }
      if e == null { p := null; }
    }

    /** PSC_Event_register: appends, unless the same handler is there already. */
    method DoRegister(h: Handler) returns (ghost added: seq<Entry>)
      requires Valid()
      modifies this, entries
      ensures Valid() && handling == old(handling) && at == old(at) && clock == old(clock) + |added|
      ensures entries == old(entries) + added
      ensures added == [] ==> Has(old(entries), h)
      ensures added != [] ==> !Has(old(entries), h) && |added| == 1 && fresh(added[0])
                              && added[0].handler == h && added[0].born == old(clock)
    {
      var e, _, i := FindEntry(h);
      if e != null {
        added := [];
        assert entries == entries + added;
      } else {
        added := Add(h);
      }
    }

    method Add(h: Handler) returns (ghost added: seq<Entry>)
      requires Valid() && !Has(entries, h)
      modifies this, entries
      ensures Valid() && handling == old(handling) && at == old(at) && clock == old(clock) + 1
      ensures |added| == 1 && entries == old(entries) + added
      ensures fresh(added[0]) && added[0].handler == h && added[0].born == old(clock)
    {
      hide Linked, Has;
      var entry := new Entry(h, clock);
      ghost var more, now := entries + [entry], clock + 1;
      OrderedAppend(entries, clock, entry);
      OrderedDistinct(entries, clock);
      assert Ordered(more, now);
      added := [entry];
      clock := now;
      Link(entry);
      assert entries == more;
      assert Ordered(entries, clock);
      assert handling != null ==> entries[at] == old(entries)[at];
    }

    /** Linking a new last entry. */
    method Link(entry: Entry)
      requires Linked() && Distinct(entries) && entry !in entries && entry.next == null
      modifies this`first, this`last, this`entries, entries
      ensures Linked() && entries == old(entries) + [entry]
    {
      ghost var es, n := entries, |entries|;
      if last != null { last.next := entry; } else { first := entry; }
      last := entry;
      entries := es + [entry];
      forall i | 0 <= i <= n ensures entries[i].next == After(entries, i) {
        if i + 1 < n { assert entries[i] == es[i] && es[i] != es[n - 1]; }
      }
    }

    /** PSC_Event_unregister: unlinks the handler's entry; if it was next in line, the one after it is. */
    method DoUnregister(h: Handler) returns (ghost gone: seq<Entry>, ghost i: nat)
      requires Valid()
      modifies this, entries
      ensures Valid() && clock == old(clock)
      ensures gone == [] ==>
                !Has(old(entries), h) && entries == old(entries) && handling == old(handling) && at == old(at)
      ensures gone != [] ==>
                && i < |old(entries)| && gone == [old(entries)[i]] && gone[0].handler == h
                && entries == Without(old(entries), i)
                && Next(old(handling), old(at), i, entries, handling, at)
    {
      gone, i := [], 0;
      if first == null { return; }
      var entry, parent;
      entry, parent, i := FindEntry(h);
      if entry == null { return; }
      gone := [entry];
      Detach(entry, parent, i);
    }

    method Detach(entry: Entry, parent: Entry?, ghost i: nat)
      requires Valid() && i < |entries| && entry == entries[i] && parent == Prev(entries, i)
      modifies this, entries
      ensures Valid() && clock == old(clock) && entries == Without(old(entries), i)
      ensures Next(old(handling), old(at), i, entries, handling, at)
    {
      hide Next, Linked, Has;
      OrderedWithout(entries, clock, i);
      OrderedDistinct(entries, clock);
      ghost var rest, now := Without(entries, i), clock;
      assert Ordered(rest, now);
      Step(entry, i);
      Unlink(entry, parent, i);
      assert entries == rest && clock == now;
    }

    /** The entry at `i` is about to go: if it is next in line, its successor is instead. */
    method Step(entry: Entry, ghost i: nat)
      requires Linked() && Distinct(entries) && i < |entries| && entry == entries[i]
      requires handling != null ==> at < |entries| && handling == entries[at]
      modifies this`handling, this`at
      ensures Next(old(handling), old(at), i, Without(entries, i), handling, at)
      ensures handling != null ==> at < |entries| - 1 && handling == Without(entries, i)[at]
    {
      assert entry.next == After(entries, i);
      NextInLine(entries, handling, at, i);
      if entry == handling { handling := entry.next; }
      if i < at { at := at - 1; }
    }

    /** Unlinking the entry found at `i`. */
    method Unlink(entry: Entry, parent: Entry?, ghost i: nat)
      requires Linked() && Distinct(entries) && i < |entries| && entry == entries[i] && parent == Prev(entries, i)
      modifies this`first, this`last, this`entries, entries
      ensures Linked() && entries == Without(old(entries), i)
    {
      ghost var es := entries;
      WithoutAt(es, i);
      if parent != null { parent.next := entry.next; } else { first := entry.next; }
      if entry.next == null { last := parent; }
      entries := Without(es, i);
      forall j | 0 <= j < |entries| ensures entries[j].next == After(entries, j) {
        if j + 1 < i { assert es[j] != es[i - 1]; }
        if j >= i > 0 { assert es[j + 1] != es[i - 1]; }
      }
    }

    /** A callback registers a handler with the event that called it. */
    method RegisterInside(h: Handler, ghost cut: int, ghost stamp: nat)
      requires Valid() && Ahead(entries, handling, at, cut, stamp) && stamp <= clock
      modifies this, entries
      ensures Valid() && Ahead(entries, handling, at, cut, stamp) && clock >= old(clock)
      ensures forall j :: 0 <= j < |entries| ==> entries[j] in old(entries) || fresh(entries[j])
      ensures Survive(old(entries), entries, [Register(h)])
      ensures InLine() == Move(old(InLine()), Register(h))
      ensures Grown(old(entries), entries, old(clock))
    {
      hide Survive, Ahead, Linked, Ordered, Grown, Move, Handlers;
      ghost var es, handle, a := entries, handling, at;
      var added := DoRegister(h);
      AheadAppend(es, handle, a, cut, stamp, added);
      AppendSurvives(es, added, h, clock - |added|);
      RegisterMoves(es, added, h, InLine().next);
      assert added == [] ==> entries == es;
      assert added != [] ==> added == [added[0]];
    }

    /** A callback unregisters a handler from the event that called it. */
    method UnregisterInside(h: Handler, ghost cut: int, ghost stamp: nat)
      requires Valid() && Ahead(entries, handling, at, cut, stamp) && stamp <= clock
      modifies this, entries
      ensures Valid() && Ahead(entries, handling, at, cut, stamp) && clock >= old(clock)
      ensures forall j :: 0 <= j < |entries| ==> entries[j] in old(entries) || fresh(entries[j])
      ensures Survive(old(entries), entries, [Unregister(h)])
      ensures InLine() == Move(old(InLine()), Unregister(h))
      ensures Grown(old(entries), entries, old(clock))
    {
      hide Survive, Ahead, Linked, Ordered, Next, Without, Grown, Move, Handlers;
      ghost var es, handle, a, now, line := entries, handling, at, clock, InLine();
      AbsentStays(es, h, line.next);
      SurviveAbsent(es, h, now);
      var gone, i := DoUnregister(h);
      if gone != [] {
        AheadWithout(es, handle, a, i, cut, stamp, handling, at, clock);
        OthersSurvive(es, i, now);
        UnregisterMoves(es, i, now, handle, a, handling, at);
      }
    }

    /** A whole callback: any finite sequence of such calls. */
    method Callback(ops: seq<Op>, ghost cut: int, ghost stamp: nat)
      requires Valid() && Ahead(entries, handling, at, cut, stamp) && stamp <= clock
      modifies this, entries
      ensures Valid() && Ahead(entries, handling, at, cut, stamp) && clock >= old(clock)
      ensures forall j :: 0 <= j < |entries| ==> entries[j] in old(entries) || fresh(entries[j])
      ensures Survive(old(entries), entries, ops) && Grown(old(entries), entries, old(clock))
      ensures InLine() == MoveAll(old(InLine()), ops)
      ensures ops == [] ==> entries == old(entries) && handling == old(handling) && at == old(at)
    {
      hide Survive, Ahead, Linked, Ordered, Grown, Move;
      ghost var start, now, line := entries, clock, InLine();
      SurviveNone(start, now);
      var i := 0;
      while i < |ops|
        invariant 0 <= i <= |ops| && Valid() && Ahead(entries, handling, at, cut, stamp) && clock >= old(clock)
        invariant forall j :: 0 <= j < |entries| ==> entries[j] in old(entries) || fresh(entries[j])
        invariant Survive(start, entries, ops[..i]) && Grown(start, entries, now)
        invariant InLine() == MoveAll(line, ops[..i])
        invariant ops == [] ==> entries == old(entries) && handling == old(handling) && at == old(at)
      {
        ghost var es, later := entries, clock;
        if ops[i].Register? { RegisterInside(ops[i].h, cut, stamp); } else { UnregisterInside(ops[i].h, cut, stamp); }
        SurviveBoth(start, now, es, later, entries, ops[..i], ops[i]);
        assert ops[..i + 1] == ops[..i] + [ops[i]];
        assert ops[..i + 1][..i] == ops[..i];
        i := i + 1;
      }
      assert ops[..i] == ops;
    }

    /** One turn of the dispatch loop: line up the successor, and call the entry if it matches. */
    method Visit(entry: Entry, id: int, ops: seq<Op>, ghost pos: nat, ghost was: int, ghost stamp: nat)
      requires Valid() && stamp <= clock && pos < |entries| && entry == entries[pos]
      requires Ahead(entries, entry, pos, was, stamp)
      modifies this, entries
      ensures Valid() && clock >= old(clock) && Ahead(entries, handling, at, entry.born, stamp)
      ensures forall j :: 0 <= j < |entries| ==> entries[j] in old(entries) || fresh(entries[j])
      ensures entry.handler.id == id ==> Survive(old(entries), entries, ops)
      ensures Grown(old(entries), entries, old(clock))
      ensures InLine() == var after := Line(old(Handlers(entries)), Successor(old(Handlers(entries)), pos));
                          if entry.handler.id == id then MoveAll(after, ops) else after
      ensures entry.handler.id != id || ops == [] ==>
                entries == old(entries) && at == pos + 1 && handling == After(entries, pos)
    {
      hide Survive, Linked, Ordered, Has, Distinct, Ahead, Grown;
      SurviveNone(entries, clock);
      TurnTaken(entries, pos, clock, was, stamp);
      LineUp(entry, pos);
      if entry.handler.id == id { Callback(ops, entry.born, stamp); }
    }

    /** The successor is remembered before the callback runs. */
    method LineUp(entry: Entry, ghost pos: nat)
      requires Valid() && pos < |entries| && entry == entries[pos]
      modifies this`handling, this`at
      ensures Valid() && at == pos + 1 && handling == After(entries, pos)
    {
      hide Ordered, Has;
      assert entry.next == After(entries, pos);
      handling, at := entry.next, pos + 1;
    }

    /** Such a turn, with the account of who was served. */
    method Turn(e: Entry, id: int, script: seq<seq<Op>>, ncalled: nat, ghost acc: Account, ghost pos: nat,
                ghost was: int)
      returns (ncalled': nat, ghost acc': Account)
      requires Valid() && acc.stamp <= clock && pos < |entries| && e == entries[pos]
      requires Ahead(entries, e, pos, was, acc.stamp)
      requires ncalled == |acc.called| && Kept(acc, entries, id, was, script)
      modifies this, entries
      ensures Valid() && clock >= old(clock) && Ahead(entries, handling, at, e.born, acc.stamp)
      ensures forall j :: 0 <= j < |entries| ==> entries[j] in old(entries) || fresh(entries[j])
      ensures ncalled' == |acc'.called| && Kept(acc', entries, id, e.born, script)
      ensures acc'.start == acc.start && acc'.stamp == acc.stamp
      ensures old(Handlers(entries))[pos] == e.handler
      ensures var line := Line(old(Handlers(entries)), Some(pos));
              var before, rest := Dispatched(line, id, script, ncalled), Dispatched(InLine(), id, script, ncalled');
              && Handlers(acc'.called) + rest.called == Handlers(acc.called) + before.called
              && rest.hs == before.hs
      ensures (ncalled' == ncalled + 1 && ncalled < |script|)
              || (ncalled' >= ncalled && entries == old(entries) && at == pos + 1 && handling == After(entries, pos))
    {
      hide Survive, Linked, Served, InOrder, Grown, Chain, Ordered, Dispatched, MoveAll, ApplyAll, Handlers;
      ghost var before, now := entries, clock;
      OneHandler(before, pos);
      DispatchTurn(Handlers(before), pos, id, script, ncalled);
      HandlersAppend(acc.called, e);
      var ops := OpsAt(script, ncalled);
      Visit(e, id, ops, pos, was, acc.stamp);
      TurnKept(acc, before, now, entries, id, was, script, pos);
      Regroup(Handlers(acc.called), [e.handler], Dispatched(InLine(), id, script, ncalled + 1).called);
      ncalled' := if e.handler.id == id then ncalled + 1 else ncalled;
      acc' := if e.handler.id == id then acc.(called := acc.called + [e], lists := acc.lists + [before]) else acc;
    }

    /**
     PSC_Event_raise, where the k-th callback makes the calls `script[k]` (and none
     beyond the script). The entries called match `id` and come in registration
     order, none twice. A matching entry present at the start is called if and only
     if no callback before its turn unregistered its handler. `lists` has the list
     as it was at each call: the entry called is linked there, and from one call to
     the next exactly what the callback unregistered is gone, and what it registered
     is new. All in all, calls and list are those of the plain sequence.
     (`handling` is null between raises; a raise nested in a callback is excluded.)
     */
    method Raise(id: int, script: seq<seq<Op>>) returns (ghost called: seq<Entry>, ghost lists: seq<seq<Entry>>)
      requires Valid() && handling == null
      modifies this, entries
      ensures Valid() && handling == null
      ensures forall i, j :: 0 <= i < j < |called| ==> called[i].born < called[j].born
      ensures forall i :: 0 <= i < |called| ==> called[i].handler.id == id
      ensures forall e :: e in old(entries) && e.handler.id == id ==>
                (e in called <==> !Dismissed(e, script, Before(called, e.born)))
      ensures Chain(old(entries), called, lists, entries, script)
      ensures Outcome(Handlers(called), Handlers(entries)) == Dispatched(AtFirst(old(entries)), id, script, 0)
    {
      ghost var acc, cut := Dispatch(id, script);
      called, lists := acc.called, acc.lists;
      AllServed(acc, entries, id, cut, script);
    }

    /** The dispatch loop; in the end nothing that was there from the start has its turn ahead. */
    method Dispatch(id: int, script: seq<seq<Op>>) returns (ghost acc: Account, ghost cut: int)
      requires Valid() && handling == null
      modifies this, entries
      ensures Valid() && handling == null && acc.start == old(entries) && acc.stamp == old(clock)
      ensures Kept(acc, entries, id, cut, script) && Ahead(entries, null, 0, cut, old(clock))
      ensures Outcome(Handlers(acc.called), Handlers(entries)) == Dispatched(AtFirst(old(entries)), id, script, 0)
    {
      hide Survive, Ordered, Served, InOrder, Grown, Chain, Dispatched, Handlers;
      ghost var pos: nat := 0;
      cut := -1;
      acc := Account(entries, clock, [], []);
      KeptFirst(acc, id, script);
      ghost var all := Dispatched(AtFirst(entries), id, script, 0);
      NoHandlers();
      assert [] + all.called == all.called;
      var ncalled := 0;
      var entry := first;
      while entry != null
        invariant Valid() && acc.stamp <= clock && (entry == null ==> handling == null)
        invariant acc.start == old(entries) && acc.stamp == old(clock)
        invariant forall j :: 0 <= j < |entries| ==> entries[j] in old(entries) || fresh(entries[j])
        invariant Ahead(entries, entry, pos, cut, acc.stamp)
        invariant entry != null ==> pos < |entries| && entry == entries[pos]
        invariant ncalled == |acc.called| && Kept(acc, entries, id, cut, script)
        invariant var line := Line(Handlers(entries), if entry == null then None else Some(pos));
                  var rest := Dispatched(line, id, script, ncalled);
                  Handlers(acc.called) + rest.called == all.called && rest.hs == all.hs
        decreases if ncalled < |script| then |script| - ncalled else 0, if entry == null then 0 else |entries| - pos
      {
        ghost var was := cut;
        cut := entry.born;
        ncalled, acc := Turn(entry, id, script, ncalled, acc, pos, was);
        entry, pos := handling, at;
      }
      DispatchedNone(Handlers(entries), id, script, ncalled);
      assert Handlers(acc.called) + [] == Handlers(acc.called);
    }
  }

  ghost function AtFirst(es: seq<Entry>): Line {
    Line(Handlers(es), if es == [] then None else Some(0))
  }

  lemma NoHandlers()
    ensures Handlers([]) == []
  {}

  lemma OneHandler(es: seq<Entry>, i: nat)
    requires i < |es|
    ensures |Handlers(es)| == |es| && Handlers(es)[i] == es[i].handler
  {}

  lemma HandlersAppend(es: seq<Entry>, e: Entry)
    ensures Handlers(es + [e]) == Handlers(es) + [e.handler]
  {}

  lemma DispatchedNone(hs: seq<Handler>, id: int, script: seq<seq<Op>>, k: nat)
    ensures Dispatched(Line(hs, None), id, script, k) == Outcome([], hs)
  {}

  lemma DispatchTurn(hs: seq<Handler>, pos: nat, id: int, script: seq<seq<Op>>, k: nat)
    requires pos < |hs|
    ensures var after, d := Line(hs, Successor(hs, pos)), Dispatched(Line(hs, Some(pos)), id, script, k);
            if hs[pos].id == id then
              var rest := Dispatched(MoveAll(after, OpsAt(script, k)), id, script, k + 1);
              d == Outcome([hs[pos]] + rest.called, rest.hs)
            else d == Dispatched(after, id, script, k)
  {
    assert MoveAll(Line(hs, Successor(hs, pos)), []) == Line(hs, Successor(hs, pos));
  }

  lemma WithoutAt(es: seq<Entry>, i: nat)
    requires i < |es|
    ensures var rest := Without(es, i);
            && (forall j :: 0 <= j < |rest| ==> rest[j] == es[if j < i then j else j + 1])
            && (forall j :: 0 <= j < |rest| ==> After(rest, j) == After(es, if j + 1 < i then j else j + 1))
            && At(rest, i) == After(es, i) && (i > 0 ==> At(rest, 0) == At(es, 0))
            && Prev(rest, |rest|) == if i == |rest| then Prev(es, i) else Prev(es, |es|)
  {}

  /** Where `handling` is after the entry at `i` was unlinked from in front of, at, or behind it. */
  ghost predicate Next(h: Entry?, at: nat, i: nat, es: seq<Entry>, h': Entry?, at': nat) {
    if h == null then h' == null
    else if i == at then at' == i && h' == At(es, i)
    else h' == h && at' == if i < at then at - 1 else at
  }

  lemma NextInLine(es: seq<Entry>, h: Entry?, at: nat, i: nat)
    requires i < |es| && Distinct(es) && (h != null ==> at < |es| && h == es[at])
    ensures var h', at', rest := if es[i] == h then After(es, i) else h, if i < at then at - 1 else at, Without(es, i);
            Next(h, at, i, rest, h', at') && (h' != null ==> at' < |rest| && h' == rest[at'])
  {
    WithoutAt(es, i);
    if h != null && i < at { assert es[i] != es[at]; }
    if h != null && at < i { assert es[at] != es[i]; }
  }

  /**
   Everything up to `cut` in registration order has had its turn, and `h`, at
   index `at`, is the first entry that has not; without one, only late
   registrations remain.
   */
  ghost predicate Ahead(es: seq<Entry>, h: Entry?, at: nat, cut: int, stamp: nat) {
    if h == null then forall j :: 0 <= j < |es| ==> es[j].born <= cut || es[j].born >= stamp
    else at < |es| && es[at].born > cut && forall j :: 0 <= j < at ==> es[j].born <= cut
  }

  lemma AheadAppend(es: seq<Entry>, h: Entry?, at: nat, cut: int, stamp: nat, added: seq<Entry>)
    requires Ahead(es, h, at, cut, stamp) && forall j :: 0 <= j < |added| ==> added[j].born >= stamp
    ensures Ahead(es + added, h, at, cut, stamp)
  {}

  lemma AheadWithout(es: seq<Entry>, h: Entry?, at: nat, i: nat, cut: int, stamp: nat, h': Entry?, at': nat, clock: nat)
    requires i < |es| && Ordered(es, clock) && Ahead(es, h, at, cut, stamp)
    requires Next(h, at, i, Without(es, i), h', at')
    ensures Ahead(Without(es, i), h', at', cut, stamp)
  {
    WithoutAt(es, i);
  }

  /** What was listed is still listed, unless its handler was unregistered; what is new was registered. */
  ghost predicate Survive(before: seq<Entry>, after: seq<Entry>, ops: seq<Op>) {
    && (forall e :: e in before ==> (e in after <==> Unregister(e.handler) !in ops))
    && (forall e :: e in after ==> e in before || Register(e.handler) in ops)
  }

  /** What is listed was listed, or was registered since. */
  ghost predicate Grown(before: seq<Entry>, after: seq<Entry>, clock: nat) {
    forall e :: e in after ==> e in before || e.born >= clock
  }

  lemma OthersSurvive(es: seq<Entry>, i: nat, clock: nat)
    requires i < |es| && Ordered(es, clock)
    ensures Survive(es, Without(es, i), [Unregister(es[i].handler)]) && Grown(es, Without(es, i), clock)
    ensures forall j :: 0 <= j < |Without(es, i)| ==> Without(es, i)[j] in es
  {
    OrderedWithout(es, clock, i);
    forall j | 0 <= j < |es| && j != i ensures es[j] in Without(es, i) {
      assert Without(es, i)[if j < i then j else j - 1] == es[j];
    }
  }

  lemma AppendSurvives(es: seq<Entry>, added: seq<Entry>, h: Handler, clock: nat)
    requires forall j :: 0 <= j < |added| ==> added[j].born >= clock && added[j].handler == h
    ensures Survive(es, es + added, [Register(h)]) && Grown(es, es + added, clock)
    ensures forall j :: 0 <= j < |es + added| ==> (es + added)[j] in es || (es + added)[j] in added
  {
    forall e | e in es ensures e in es + added {}
  }

  lemma RegisterMoves(es: seq<Entry>, added: seq<Entry>, h: Handler, next: Option<nat>)
    requires if added == [] then Has(es, h) else |added| == 1 && added[0].handler == h && !Has(es, h)
    ensures Line(Handlers(es + added), next) == Move(Line(Handlers(es), next), Register(h))
  {
    var hs := Handlers(es);
    if j :| 0 <= j < |es| && es[j].handler == h { assert hs[j] == h; }
    assert added == [] ==> es + added == es;
  }

  lemma AbsentStays(es: seq<Entry>, h: Handler, next: Option<nat>)
    ensures !Has(es, h) ==> Line(Handlers(es), next) == Move(Line(Handlers(es), next), Unregister(h))
  {
    assert !Has(es, h) ==> h !in Handlers(es);
  }

  lemma UnregisterMoves(es: seq<Entry>, i: nat, clock: nat, h: Entry?, at: nat, h': Entry?, at': nat)
    requires i < |es| && Ordered(es, clock) && (h != null ==> at < |es|) && Next(h, at, i, Without(es, i), h', at')
    requires h' != null ==> at' < |Without(es, i)|
    ensures var next, next' := if h == null then None else Some(at), if h' == null then None else Some(at');
            Line(Handlers(Without(es, i)), next') == Move(Line(Handlers(es), next), Unregister(es[i].handler))
  {
    var hs, x := Handlers(es), es[i].handler;
    assert hs[i] == x && x in hs;
    assert IndexOf(hs, x) == i;
    assert Handlers(Without(es, i)) == Without(hs, i);
  }

  lemma SurviveAbsent(es: seq<Entry>, h: Handler, clock: nat)
    ensures !Has(es, h) ==> Survive(es, es, [Unregister(h)]) && Grown(es, es, clock)
  {}

  lemma SurviveNone(es: seq<Entry>, clock: nat)
    ensures Survive(es, es, []) && Grown(es, es, clock)
  {}

  lemma SurviveBoth(a: seq<Entry>, clock: nat, b: seq<Entry>, later: nat, c: seq<Entry>, ops: seq<Op>, op: Op)
    requires Ordered(a, clock) && clock <= later && Grown(a, b, clock) && Grown(b, c, later)
    requires Survive(a, b, ops) && Survive(b, c, [op])
    ensures Survive(a, c, ops + [op]) && Grown(a, c, clock)
  {}

  function OpsAt(script: seq<seq<Op>>, k: nat): seq<Op> {
    if k < |script| then script[k] else []
  }

  /** One of the first `n` callbacks unregistered the entry's handler. */
  ghost predicate Dismissed(e: Entry, script: seq<seq<Op>>, n: nat) {
    exists k :: 0 <= k < n && Unregister(e.handler) in OpsAt(script, k)
  }

  /** How many entries were called before the turn of one born at `born`. */
  ghost function Before(called: seq<Entry>, born: nat): (n: nat)
    ensures n <= |called|
  {
    if called == [] then 0
    else Before(called[..|called| - 1], born) + if called[|called| - 1].born < born then 1 else 0
  }

  lemma {:induction false} AllBefore(called: seq<Entry>, born: nat)
    requires forall i :: 0 <= i < |called| ==> called[i].born < born
    ensures Before(called, born) == |called|
  {
    if called != [] { AllBefore(called[..|called| - 1], born); }
  }

  lemma OneCalled(called: seq<Entry>, e: Entry, born: nat)
    ensures Before(called + [e], born) == Before(called, born) + if e.born < born then 1 else 0
  {
    assert (called + [e])[..|called|] == called;
  }

  /** The list at the start, the entries called so far, and the list as it was at each of these calls. */
  datatype Account = Account(start: seq<Entry>, stamp: nat, called: seq<Entry>, lists: seq<seq<Entry>>)

  ghost predicate InOrder(called: seq<Entry>, id: int, cut: int) {
    && (forall i, j :: 0 <= i < j < |called| ==> called[i].born < called[j].born)
    && (forall i :: 0 <= i < |called| ==> called[i].handler.id == id && called[i].born <= cut)
  }

  /** A matching entry from the start had its turn, with the call it was due; or has it ahead, if still listed. */
  ghost predicate ServedOne(e: Entry, es: seq<Entry>, called: seq<Entry>, cut: int, script: seq<seq<Op>>) {
    if e.born <= cut then e in called <==> !Dismissed(e, script, Before(called, e.born))
    else e !in called && (e in es <==> !Dismissed(e, script, |called|))
  }

  ghost predicate Served(start: seq<Entry>, es: seq<Entry>, called: seq<Entry>, id: int, cut: int,
                         script: seq<seq<Op>>)
  {
    forall e :: e in start && e.handler.id == id ==> ServedOne(e, es, called, cut, script)
  }

  /** The list at call `i`, and the one in the end. */
  ghost function ListAt(lists: seq<seq<Entry>>, i: nat, es: seq<Entry>): seq<Entry> {
    if i < |lists| then lists[i] else es
  }

  ghost predicate CallOk(called: seq<Entry>, lists: seq<seq<Entry>>, es: seq<Entry>, script: seq<seq<Op>>, i: nat)
    requires i < |called| == |lists|
  {
    called[i] in lists[i] && Survive(lists[i], ListAt(lists, i + 1, es), OpsAt(script, i))
  }

  ghost predicate ListOk(start: seq<Entry>, lists: seq<seq<Entry>>, es: seq<Entry>, script: seq<seq<Op>>, i: nat) {
    Handlers(ListAt(lists, i, es)) == HandlersAfter(Handlers(start), script, i)
  }

  /**
   Every entry called is linked then; from call to call the list changes by what the
   callback did alone, and its handlers are those the callbacks so far leave.
   */
  ghost predicate Chain(start: seq<Entry>, called: seq<Entry>, lists: seq<seq<Entry>>, es: seq<Entry>,
                        script: seq<seq<Op>>)
  {
    && |lists| == |called| && ListAt(lists, 0, es) == start
    && (forall i :: 0 <= i < |called| ==> CallOk(called, lists, es, script, i))
    && (forall i :: 0 <= i <= |called| ==> ListOk(start, lists, es, script, i))
  }

  ghost predicate Kept(acc: Account, es: seq<Entry>, id: int, cut: int, script: seq<seq<Op>>) {
    && Ordered(acc.start, acc.stamp) && InOrder(acc.called, id, cut)
    && Grown(acc.start, es, acc.stamp)
    && Served(acc.start, es, acc.called, id, cut, script)
    && Chain(acc.start, acc.called, acc.lists, es, script)
  }

  lemma KeptFirst(acc: Account, id: int, script: seq<seq<Op>>)
    requires Ordered(acc.start, acc.stamp) && acc.called == [] && acc.lists == []
    ensures Kept(acc, acc.start, id, -1, script)
  {}

  lemma AllServed(acc: Account, es: seq<Entry>, id: int, cut: int, script: seq<seq<Op>>)
    requires Kept(acc, es, id, cut, script) && Ahead(es, null, 0, cut, acc.stamp)
    ensures forall i, j :: 0 <= i < j < |acc.called| ==> acc.called[i].born < acc.called[j].born
    ensures forall i :: 0 <= i < |acc.called| ==> acc.called[i].handler.id == id
    ensures forall e :: e in acc.start && e.handler.id == id ==>
              (e in acc.called <==> !Dismissed(e, script, Before(acc.called, e.born)))
    ensures Chain(acc.start, acc.called, acc.lists, es, script)
  {
    forall e | e in acc.start && e.handler.id == id
      ensures e in acc.called <==> !Dismissed(e, script, Before(acc.called, e.born))
    {
      assert ServedOne(e, es, acc.called, cut, script);
      if e.born > cut { AllBefore(acc.called, e.born); }
    }
  }

  /** Moving past the entry at `pos` puts its successor first in line. */
  lemma TurnTaken(es: seq<Entry>, pos: nat, clock: nat, cut: int, stamp: nat)
    requires Ordered(es, clock) && pos < |es| && Ahead(es, es[pos], pos, cut, stamp)
    ensures Ahead(es, After(es, pos), pos + 1, es[pos].born, stamp)
  {}

  /** What has its turn ahead is the entry at `pos`, or comes after it. */
  lemma StillAhead(es: seq<Entry>, clock: nat, pos: nat, was: int, e: Entry)
    requires Ordered(es, clock) && pos < |es| && (forall j :: 0 <= j < pos ==> es[j].born <= was)
    requires e in es && e.born > was
    ensures e == es[pos] || e.born > es[pos].born
  {
    var j :| 0 <= j < |es| && es[j] == e;
    assert j >= pos;
  }

  lemma ServedSkip(e: Entry, es: seq<Entry>, x: Entry, called: seq<Entry>, id: int, was: int,
                   script: seq<seq<Op>>)
    requires ServedOne(e, es, called, was, script) && InOrder(called, id, was) && was < x.born
    requires e in es && e.born > was ==> e.born > x.born
    ensures ServedOne(e, es, called, x.born, script)
  {
    if was < e.born <= x.born { AllBefore(called, e.born); }
  }

  /** The entry `x` is called: it is served, and of those behind it those that survive are still ahead. */
  lemma ServedCall(e: Entry, es: seq<Entry>, es': seq<Entry>, x: Entry, called: seq<Entry>, id: int, was: int,
                   script: seq<seq<Op>>)
    requires ServedOne(e, es, called, was, script) && InOrder(called, id, was) && was < x.born && x in es
    requires e in es && e.born > was ==> e == x || e.born > x.born
    requires e.born == x.born ==> e == x
    requires Survive(es, es', OpsAt(script, |called|)) && (e in es' ==> e in es)
    ensures ServedOne(e, es', called + [x], x.born, script)
  {
    OneCalled(called, x, e.born);
    if was < e.born { AllBefore(called, e.born); }
    assert (called + [x])[|called|] == x;
    if e.born <= x.born {
      assert e in called + [x] <==> e in called || e == x;
    } else {
      DismissedNext(e, script, |called|);
    }
  }

  lemma DismissedNext(e: Entry, script: seq<seq<Op>>, n: nat)
    ensures Dismissed(e, script, n + 1) <==> Dismissed(e, script, n) || Unregister(e.handler) in OpsAt(script, n)
  {}

  lemma ChainNext(acc: Account, es: seq<Entry>, es': seq<Entry>, x: Entry, script: seq<seq<Op>>)
    requires Chain(acc.start, acc.called, acc.lists, es, script) && x in es
    requires Survive(es, es', OpsAt(script, |acc.called|))
    requires Handlers(es') == ApplyAll(Handlers(es), OpsAt(script, |acc.called|))
    ensures Chain(acc.start, acc.called + [x], acc.lists + [es], es', script)
  {
    var n, called, lists := |acc.called|, acc.called + [x], acc.lists + [es];
    hide Survive, ApplyAll, Handlers, HandlersAfter;
    forall i | 0 <= i <= n ensures CallOk(called, lists, es', script, i) {
      if i < n { assert CallOk(acc.called, acc.lists, es, script, i); }
    }
    assert ListOk(acc.start, acc.lists, es, script, n);
    OneMoreCallback(Handlers(acc.start), script, n);
    forall i | 0 <= i <= n + 1 ensures ListOk(acc.start, lists, es', script, i) {
      if i <= n { assert ListOk(acc.start, acc.lists, es, script, i); }
    }
  }

  lemma OneMoreCallback(hs: seq<Handler>, script: seq<seq<Op>>, n: nat)
    ensures HandlersAfter(hs, script, n + 1) == ApplyAll(HandlersAfter(hs, script, n), OpsAt(script, n))
  {}

  /** The account after the turn of the entry at `pos`, whatever its callback did. */
  lemma TurnKept(acc: Account, es: seq<Entry>, clock: nat, es': seq<Entry>, id: int, was: int,
                 script: seq<seq<Op>>, pos: nat)
    requires Kept(acc, es, id, was, script) && Ordered(es, clock) && acc.stamp <= clock && pos < |es|
    requires Ahead(es, es[pos], pos, was, acc.stamp)
    requires Grown(es, es', clock)
    requires es[pos].handler.id != id ==> es' == es
    requires es[pos].handler.id == id ==> Survive(es, es', OpsAt(script, |acc.called|))
    requires es[pos].handler.id == id ==> Handlers(es') == ApplyAll(Handlers(es), OpsAt(script, |acc.called|))
    ensures var x := es[pos];
            Kept(if x.handler.id == id then acc.(called := acc.called + [x], lists := acc.lists + [es]) else acc,
                 es', id, x.born, script)
  {
    hide Survive, Chain, Dismissed;
    var x := es[pos];
    InOrderNext(acc.called, id, was, x);
    if x.handler.id == id { ChainNext(acc, es, es', x, script); }
    forall e | e in acc.start && e.handler.id == id
      ensures ServedOne(e, es', if x.handler.id == id then acc.called + [x] else acc.called, x.born, script)
    {
      assert ServedOne(e, es, acc.called, was, script);
      if e in es && e.born > was { StillAhead(es, clock, pos, was, e); }
      if x.handler.id == id {
        SameBirth(acc, es, x, e);
        ServedCall(e, es, es', x, acc.called, id, was, script);
      } else {
        ServedSkip(e, es, x, acc.called, id, was, script);
      }
    }
  }

  /** Births tell the entries from the start from each other, and from all others. */
  lemma SameBirth(acc: Account, es: seq<Entry>, x: Entry, e: Entry)
    requires Ordered(acc.start, acc.stamp) && Grown(acc.start, es, acc.stamp) && x in es && e in acc.start
    ensures e.born == x.born ==> e == x
  {}

  lemma InOrderNext(called: seq<Entry>, id: int, was: int, e: Entry)
    requires InOrder(called, id, was) && e.born > was
    ensures InOrder(called, id, e.born) && (e.handler.id == id ==> InOrder(called + [e], id, e.born))
  {}
}
