/**
 The receiving half of a connection (connection.c): bytes read in arbitrary
 portions are handed out as they come, in chunks of an exact size, or as texts
 whose end a locator finds; the handler may change the mode at any time, and may
 hold up further messages until it confirms.
 */
module Receiver {
  import opened Common

  /** The length of the message at the front of a text, if it is complete. */
  type Locator = Bytes -> Option<nat>

  datatype Mode = Binary | Text(locator: Locator)

  /** What a handler, or anyone else, may ask of the connection. */
  datatype Op = ReceiveBinary(expected: nat) | ReceiveText(locator: Locator) | MarkHandling

  /** How the connection receives; `expected` is zero for binary chunks of any size. */
  datatype Setting = Setting(mode: Mode, expected: nat)

  /**
   What happens to a connection: from outside, a read into `room` free bytes, a
   request, a confirmation; from the loop that raises events, messages with what their
   handler asks for, NUL bytes dropped, and the end of the loop.
   */
  datatype Item =
    | Read(bytes: Bytes, room: nat)
    | Asked(op: Op)
    | Confirmed
    | BinaryMessage(bytes: Bytes, ops: seq<Op>)
    | TextMessage(text: Bytes, ops: seq<Op>)
    | Skipped(nuls: Bytes)
    | Rested

  // ----- Texts -----

  /** What a C string function sees of a buffer that has a NUL behind it. */
  function CString(s: Bytes): (r: Bytes)
    ensures r <= s && NoNul(r) && (|r| < |s| ==> s[|r|] == 0)
  {
    if s == [] || s[0] == 0 then [] else [s[0]] + CString(s[1..])
  }

  /** A locator finds an end within the text, if any. */
  ghost predicate Within(locator: Locator) {
    forall s :: locator(s).Some? ==> locator(s).value <= |s|
  }

  /** It never finds the end of an empty message. */
  ghost predicate Strict(locator: Locator) {
    forall s :: locator(s).Some? ==> locator(s).value >= 1
  }

  const CR: Byte := 0x0d
  const LF: Byte := 0x0a

  predicate Matches(s: Bytes, i: nat, pat: Bytes) {
    i + |pat| <= |s| && forall k :: 0 <= k < |pat| ==> s[i + k] == pat[k]
  }

  /** strstr and strchr: the first place from `i` on where `s` has `pat`. */
  function FindFrom(s: Bytes, pat: Bytes, i: nat): (r: Option<nat>)
    ensures r.Some? ==> r.value >= i && Matches(s, r.value, pat)
    ensures forall j: nat :: i <= j && Matches(s, j, pat) ==> r.Some? && r.value <= j
    decreases |s| - i
  {
    if Matches(s, i, pat) then Some(i) else if i >= |s| then None else FindFrom(s, pat, i + 1)
  }

  function Find(s: Bytes, pat: Bytes): Option<nat> {
    FindFrom(s, pat, 0)
  }

  /** locateeol: behind the first CRLF if there is one, else behind the first LF, else behind the first CR. */
  function LocateEol(s: Bytes): Option<nat> {
    var crlf, lf, cr := Find(s, [CR, LF]), Find(s, [LF]), Find(s, [CR]);
    if crlf.Some? then Some(crlf.value + 2)
    else if lf.Some? then Some(lf.value + 1)
    else if cr.Some? then Some(cr.value + 1)
    else None
  }

  /** A line ends at a line end, and there is one as soon as the text has a CR or an LF. */
  lemma LocateEolIsGood()
    ensures Within(LocateEol) && Strict(LocateEol)
    ensures forall s :: LocateEol(s).Some? <==> CR in s || LF in s
    ensures forall s :: LocateEol(s).Some? ==> s[LocateEol(s).value - 1] == LF || s[LocateEol(s).value - 1] == CR
  {
    forall s: Bytes
      ensures LocateEol(s).Some? ==> 1 <= LocateEol(s).value <= |s|
      ensures LocateEol(s).Some? <==> CR in s || LF in s
      ensures LocateEol(s).Some? ==> s[LocateEol(s).value - 1] == LF || s[LocateEol(s).value - 1] == CR
    {
      EolFound(s);
    }
  }

  /** The `n`-th byte is the first one that is `b`. */
  ghost predicate FirstAt(s: Bytes, n: nat, b: Byte) {
    n < |s| && s[n] == b && forall i :: 0 <= i < n ==> s[i] != b
  }

  ghost predicate PairAt(s: Bytes, n: nat) {
    n + 1 < |s| && s[n] == CR && s[n + 1] == LF
  }

  /**
   The line ends behind the first CR that an LF follows at once, and takes both in;
   without one, behind the first LF; and without that, behind the first CR.
   */
  lemma EolIs(s: Bytes, n: nat)
    ensures PairAt(s, n) && (forall i: nat :: i < n ==> !PairAt(s, i)) ==> LocateEol(s) == Some(n + 2)
    ensures (forall i: nat :: !PairAt(s, i)) && FirstAt(s, n, LF) ==> LocateEol(s) == Some(n + 1)
    ensures LF !in s && FirstAt(s, n, CR) ==> LocateEol(s) == Some(n + 1)
    ensures LF !in s && CR !in s ==> LocateEol(s) == None
  {
    hide Find;
    FindByte(s, CR);
    FindByte(s, LF);
    FindPair(s);
    var crlf := Find(s, [CR, LF]);
    if crlf.Some? { assert PairAt(s, crlf.value); }
  }

  lemma EolFound(s: Bytes)
    ensures LocateEol(s).Some? ==> 1 <= LocateEol(s).value <= |s|
    ensures LocateEol(s).Some? <==> CR in s || LF in s
    ensures LocateEol(s).Some? ==> s[LocateEol(s).value - 1] == LF || s[LocateEol(s).value - 1] == CR
  {
    hide Find;
    FindByte(s, CR);
    FindByte(s, LF);
    FindPair(s);
  }

  lemma FindByte(s: Bytes, b: Byte)
    ensures Find(s, [b]).Some? <==> b in s
    ensures Find(s, [b]).Some? ==> Find(s, [b]).value < |s| && s[Find(s, [b]).value] == b
    ensures forall i :: 0 <= i < |s| && s[i] == b ==> Find(s, [b]).Some? && Find(s, [b]).value <= i
  {
    forall i | 0 <= i < |s| && s[i] == b ensures Find(s, [b]).Some? && Find(s, [b]).value <= i {
      assert Matches(s, i, [b]);
    }
    var pat, r := [b], Find(s, [b]);
    if r.Some? { assert s[r.value + 0] == pat[0]; }
  }

  lemma FindPair(s: Bytes)
    ensures var r := Find(s, [CR, LF]);
            && (r.Some? ==> r.value + 2 <= |s| && s[r.value] == CR && s[r.value + 1] == LF)
            && forall i :: 0 <= i < |s| - 1 && s[i] == CR && s[i + 1] == LF ==> r.Some? && r.value <= i
  {
    var pat, r := [CR, LF], Find(s, [CR, LF]);
    if r.Some? { assert s[r.value + 0] == pat[0] && s[r.value + 1] == pat[1]; }
    forall i | 0 <= i < |s| - 1 && s[i] == CR && s[i + 1] == LF ensures r.Some? && r.value <= i {
      assert Matches(s, i, [CR, LF]);
    }
  }

  /** The only line end among the first `n` bytes is the CR, LF or CRLF they end in. */
  ghost predicate OneLine(s: Bytes, n: nat)
    requires 1 <= n <= |s|
  {
    forall i :: 0 <= i < n - 1 ==> s[i] != LF && (s[i] == CR ==> i == n - 2 && s[n - 1] == LF)
  }

  /**
   The line found may hold an earlier line end. It does not if and only if the
   first CR and LF are those of the first CRLF where there is one, and otherwise
   no CR comes before the first LF.
   */
  lemma OneLineIff(s: Bytes)
    requires LocateEol(s).Some?
    ensures 1 <= LocateEol(s).value <= |s|
    ensures OneLine(s, LocateEol(s).value) <==>
            var crlf, lf, cr := Find(s, [CR, LF]), Find(s, [LF]), Find(s, [CR]);
            if crlf.Some? then cr == crlf && lf == Some(crlf.value + 1)
            else lf.Some? && cr.Some? ==> lf.value < cr.value
  {
    hide Find;
    EolFound(s);
    FindByte(s, CR);
    FindByte(s, LF);
    FindPair(s);
  }

  lemma TwoLinesAtOnce()
    ensures var s := [0x61, LF, 0x62, CR, LF]; LocateEol(s) == Some(5) && !OneLine(s, 5)
  {
    var s: Bytes := [0x61, LF, 0x62, CR, LF];
    hide Find;
    FindPair(s);
    assert s[3] == CR && s[4] == LF && s[1] == LF;
  }

  function LeadingNuls(s: Bytes): (n: nat)
    ensures n <= |s| && (forall i :: 0 <= i < n ==> s[i] == 0) && (n < |s| ==> s[n] != 0)
  {
    if s == [] || s[0] != 0 then 0 else 1 + LeadingNuls(s[1..])
  }

  lemma NulsCounted(s: Bytes, n: nat)
    requires n <= |s| && (forall i :: 0 <= i < n ==> s[i] == 0) && (n < |s| ==> s[n] != 0)
    ensures LeadingNuls(s) == n
  {}

  /** A text without its NUL bytes. */
  function Strip(s: Bytes): Bytes {
    if s == [] then [] else (if s[0] == 0 then [] else [s[0]]) + Strip(s[1..])
  }

  lemma {:induction false} StripBoth(s: Bytes, t: Bytes)
    ensures Strip(s + t) == Strip(s) + Strip(t)
  {
    if s == [] {
      assert s + t == t;
    } else {
      assert (s + t)[1..] == s[1..] + t;
      StripBoth(s[1..], t);
    }
  }

  lemma {:induction false} StripNone(s: Bytes)
    requires forall i :: 0 <= i < |s| ==> s[i] == 0
    ensures Strip(s) == []
  {
    if s != [] { StripNone(s[1..]); }
  }

  /**
   Where the text at the front of the buffer ends, if it can be delivered: where its
   locator says, or at its NUL if the buffer is full from its first byte on.
   */
  function TextEnd(locator: Locator, text: Bytes, full: bool): (r: Option<nat>)
    ensures r.Some? ==> text != [] && r.value <= |text|
  {
    if text == [] then None
    else
      var str := CString(text);
      if locator(str).Some? then Some(if locator(str).value <= |text| then locator(str).value else |text|)
      else if full then Some(|str|) else None
  }

  lemma CStringOf(t: Bytes, rest: Bytes)
    requires NoNul(t)
    ensures CString(t + [0] + rest) == t
  {
    if t != [] {
      assert (t + [0] + rest)[1..] == t[1..] + [0] + rest;
      CStringOf(t[1..], rest);
    }
  }

  /**
   A NUL does not end a text by itself: the text in front of it can be delivered if
   and only if the locator finds an end in it, or the buffer is full from there on.
   */
  lemma NulEndsTextIff(locator: Locator, t: Bytes, rest: Bytes, full: bool)
    requires Within(locator) && t != [] && NoNul(t)
    ensures TextEnd(locator, t + [0] + rest, full).Some? <==> locator(t).Some? || full
    ensures TextEnd(locator, t + [0] + rest, full).Some? ==> TextEnd(locator, t + [0] + rest, full).value <= |t|
  {
    CStringOf(t, rest);
  }

  /** Only a locator that answers the start of the text leaves it where it is, and delivers an empty message. */
  lemma StuckIff(locator: Locator, text: Bytes, full: bool)
    requires text != [] && text[0] != 0 && TextEnd(locator, text, full).Some?
    ensures text[TextEnd(locator, text, full).value..] == text <==> locator(CString(text)) == Some(0)
  {
    var n := TextEnd(locator, text, full).value;
    assert n == 0 ==> text[n..] == text;
    assert n > 0 ==> |text[n..]| < |text|;
  }

  // ----- The reference -----

  /** What never changes: the size of the buffer, and what the handler asks for in its n-th call. */
  datatype Env = Env(size: nat, handler: nat -> seq<Op>)

  /** `busy` while the loop that raises events is running. */
  datatype State = State(pending: Bytes, setting: Setting, handling: nat, calls: nat, busy: bool)

  function Ask(st: Setting, op: Op, size: nat): Setting {
    match op
    case ReceiveBinary(expected) => if expected > size then st else Setting(Binary, expected)
    case ReceiveText(locator) => Setting(Text(locator), st.expected)
    case MarkHandling => st
  }

  function AskAll(st: Setting, ops: seq<Op>, size: nat): Setting {
    if ops == [] then st else Ask(AskAll(st, ops[..|ops| - 1], size), ops[|ops| - 1], size)
  }

  function Marks(ops: seq<Op>): nat {
    if ops == [] then 0 else Marks(ops[..|ops| - 1]) + if ops[|ops| - 1].MarkHandling? then 1 else 0
  }

  /** What the loop does next. */
  ghost function Due(s: State, env: Env): Item {
    if s.handling > 0 || s.pending == [] then Rested
    else if s.setting.mode.Text? then
      var n := LeadingNuls(s.pending);
      var end := TextEnd(s.setting.mode.locator, s.pending, |s.pending| == env.size);
      if n > 0 then Skipped(s.pending[..n])
      else if end.Some? then TextMessage(s.pending[..end.value], env.handler(s.calls))
      else Rested
    else
      var n := if s.setting.expected > 0 then s.setting.expected else |s.pending|;
      if n <= |s.pending| then BinaryMessage(s.pending[..n], env.handler(s.calls)) else Rested
  }

  lemma DueText(s: State, env: Env)
    requires s.handling == 0 && s.setting.mode.Text? && s.pending != [] && s.pending[0] != 0
    ensures var end := TextEnd(s.setting.mode.locator, s.pending, |s.pending| == env.size);
            Due(s, env) == if end.Some? then TextMessage(s.pending[..end.value], env.handler(s.calls)) else Rested
  {
    assert LeadingNuls(s.pending) == 0;
  }

  ghost predicate IsInput(e: Item) {
    e.Read? || e.Asked? || e.Confirmed?
  }

  /** While the loop runs, only what is due happens, and else only input. */
  ghost predicate Fits(e: Item, s: State, env: Env) {
    if s.busy then e == Due(s, env)
    else
      match e
      case Read(bytes, room) => 0 < |bytes| <= room && |s.pending| + room <= env.size
      case Asked(_) => true
      case Confirmed => s.handling > 0
      case _ => false
  }

  function Drop(s: Bytes, n: nat): Bytes {
    if n <= |s| then s[n..] else []
  }

  ghost function Called(s: State, n: nat, ops: seq<Op>, env: Env): State {
    State(Drop(s.pending, n), AskAll(s.setting, ops, env.size), s.handling + Marks(ops), s.calls + 1, s.busy)
  }

  ghost function After(s: State, e: Item, env: Env): State {
    match e
    case Read(bytes, _) => s.(pending := s.pending + bytes, busy := true)
    case Asked(op) => s.(setting := Ask(s.setting, op, env.size), handling := s.handling + Marks([op]))
    case Confirmed =>
      if s.handling == 0 then s else s.(handling := s.handling - 1, busy := s.handling == 1)
    case BinaryMessage(bytes, ops) => Called(s, |bytes|, ops, env)
    case TextMessage(text, ops) => Called(s, |text|, ops, env)
    case Skipped(nuls) => s.(pending := Drop(s.pending, |nuls|))
    case Rested => s.(busy := false)
  }

  ghost function StateOf(log: seq<Item>, env: Env): State {
    if log == [] then State([], Setting(Binary, 0), 0, 0, false)
    else After(StateOf(log[..|log| - 1], env), log[|log| - 1], env)
  }

  ghost predicate LogOk(log: seq<Item>, env: Env) {
    log == [] || (LogOk(log[..|log| - 1], env) && Fits(log[|log| - 1], StateOf(log[..|log| - 1], env), env))
  }

  /** What came from outside. */
  ghost function Inputs(log: seq<Item>): seq<Item> {
    if log == [] then []
    else Inputs(log[..|log| - 1]) + if IsInput(log[|log| - 1]) then [log[|log| - 1]] else []
  }

  lemma OneMoreItem(log: seq<Item>, e: Item, env: Env)
    ensures StateOf(log + [e], env) == After(StateOf(log, env), e, env)
    ensures LogOk(log, env) && Fits(e, StateOf(log, env), env) ==> LogOk(log + [e], env)
    ensures Inputs(log + [e]) == Inputs(log) + if IsInput(e) then [e] else []
  {
    assert (log + [e])[..|log|] == log;
  }

  lemma {:induction false} FrontOk(log: seq<Item>, k: nat, env: Env)
    requires LogOk(log, env) && k <= |log|
    ensures LogOk(log[..k], env) && Inputs(log[..k]) <= Inputs(log)
    ensures k < |log| ==> Fits(log[k], StateOf(log[..k], env), env)
    ensures k < |log| && IsInput(log[k]) ==> Inputs(log[..k]) + [log[k]] <= Inputs(log)
  {
    if k == |log| {
      assert log[..k] == log;
    } else if k < |log| - 1 {
      var front := log[..|log| - 1];
      FrontOk(front, k, env);
      assert front[..k] == log[..k];
    }
  }

  lemma {:induction false} SameFront(a: seq<Item>, b: seq<Item>, k: nat, env: Env)
    requires LogOk(a, env) && LogOk(b, env) && Inputs(a) == Inputs(b)
    requires k <= |a| && !StateOf(a, env).busy && !StateOf(b, env).busy
    ensures k <= |b| && a[..k] == b[..k]
  {
    hide LogOk, StateOf, Inputs, Fits;
    if k > 0 {
      SameFront(a, b, k - 1, env);
      FrontOk(a, k - 1, env);
      FrontOk(b, k - 1, env);
      SameNext(a, b, k - 1, env);
      assert a[..k] == a[..k - 1] + [a[k - 1]] && b[..k] == b[..k - 1] + [b[k - 1]];
    }
  }

  lemma SameNext(a: seq<Item>, b: seq<Item>, k: nat, env: Env)
    requires k < |a| && k <= |b| && a[..k] == b[..k] && Inputs(a) == Inputs(b) && !StateOf(b, env).busy
    requires Fits(a[k], StateOf(a[..k], env), env) && (k < |b| ==> Fits(b[k], StateOf(b[..k], env), env))
    requires IsInput(a[k]) ==> Inputs(a[..k]) + [a[k]] <= Inputs(a)
    requires k < |b| && IsInput(b[k]) ==> Inputs(b[..k]) + [b[k]] <= Inputs(b)
    ensures k < |b| && a[k] == b[k]
  {
    hide StateOf, Inputs, Due;
    assert b[..|b|] == b;
    if k < |b| && IsInput(a[k]) && IsInput(b[k]) {
      var n := |Inputs(a[..k])|;
      assert (Inputs(a[..k]) + [a[k]])[n] == Inputs(a)[n] == (Inputs(b[..k]) + [b[k]])[n];
    }
  }

  /**
   All that is delivered and dropped follows from what came from outside and what the
   handler asks for: no other log at rest has the same input.
   */
  lemma SameInputsSameLog(a: seq<Item>, b: seq<Item>, env: Env)
    requires LogOk(a, env) && LogOk(b, env) && !StateOf(a, env).busy && !StateOf(b, env).busy
    requires Inputs(a) == Inputs(b)
    ensures a == b
  {
    SameFront(a, b, |a|, env);
    SameFront(b, a, |b|, env);
    assert a[..|a|] == a && b[..|b|] == b;
  }

  // ----- The account -----

  /** The bytes an item takes out of the buffer. */
  ghost function Taken(e: Item): Bytes {
    match e
    case BinaryMessage(bytes, _) => bytes
    case TextMessage(text, _) => text
    case Skipped(nuls) => nuls
    case _ => []
  }

  /** Those of them that a handler sees. */
  ghost function Given(e: Item): Bytes {
    if e.Skipped? then [] else Taken(e)
  }

  ghost function Flow(log: seq<Item>): Bytes {
    if log == [] then [] else Flow(log[..|log| - 1]) + Taken(log[|log| - 1])
  }

  ghost function Delivered(log: seq<Item>): Bytes {
    if log == [] then [] else Delivered(log[..|log| - 1]) + Given(log[|log| - 1])
  }

  ghost function Got(e: Item): Bytes {
    if e.Read? then e.bytes else []
  }

  /** All bytes read. */
  ghost function Received(log: seq<Item>): Bytes {
    if log == [] then [] else Received(log[..|log| - 1]) + Got(log[|log| - 1])
  }

  /** Nothing read is lost, doubled or reordered. */
  lemma {:induction false} Conserved(log: seq<Item>, env: Env)
    requires LogOk(log, env)
    ensures Received(log) == Flow(log) + StateOf(log, env).pending
  {
    hide Fits, Taken, Got, After;
    if log != [] {
      var front, e := log[..|log| - 1], log[|log| - 1];
      Conserved(front, env);
      Booked(Flow(front), StateOf(front, env), e, env);
    }
  }

  lemma Booked(flow: Bytes, s: State, e: Item, env: Env)
    requires Fits(e, s, env)
    ensures (flow + s.pending) + Got(e) == (flow + Taken(e)) + After(s, e, env).pending
  {
    hide Fits, Taken, After;
    ItemConserves(s, e, env);
    Regroup(flow, s.pending, Got(e));
    Regroup(flow, Taken(e), After(s, e, env).pending);
    assert e.Read? || s.pending + Got(e) == s.pending;
  }

  lemma ItemConserves(s: State, e: Item, env: Env)
    requires Fits(e, s, env)
    ensures if e.Read? then After(s, e, env).pending == s.pending + e.bytes && Taken(e) == []
            else s.pending == Taken(e) + After(s, e, env).pending
  {
    hide LeadingNuls, TextEnd, AskAll, Marks;
    assert s.pending == [] + s.pending;
    if s.busy { DueIsFront(s, env); }
  }

  lemma DueIsFront(s: State, env: Env)
    ensures |Taken(Due(s, env))| <= |s.pending| && Taken(Due(s, env)) == s.pending[..|Taken(Due(s, env))|]
    ensures s.pending == Taken(Due(s, env)) + Drop(s.pending, |Taken(Due(s, env))|)
  {
    hide LeadingNuls, TextEnd;
    FrontAndRest(s.pending, if |Taken(Due(s, env))| <= |s.pending| then |Taken(Due(s, env))| else 0);
  }

  lemma FrontAndRest(s: Bytes, k: nat)
    requires k <= |s|
    ensures s == s[..k] + s[k..]
  {}

  /**
   A binary message has the size expected, if any. A text ends where its locator says,
   or, without an end, is all that a buffer full from its first byte on has in front of
   a NUL. What is dropped is NUL bytes while receiving texts.
   */
  ghost predicate Framed(e: Item, s: State, size: nat) {
    match e
    case BinaryMessage(bytes, _) =>
      s.setting.mode.Binary? && bytes != [] && (s.setting.expected > 0 ==> |bytes| == s.setting.expected)
    case TextMessage(text, _) =>
      && s.setting.mode.Text? && NoNul(text) && text <= CString(s.pending)
      && var end := s.setting.mode.locator(CString(s.pending));
      if end.Some? then |text| == end.value else text == CString(s.pending) && |s.pending| == size
    case Skipped(nuls) => s.setting.mode.Text? && nuls != [] && Strip(nuls) == []
    case _ => true
  }

  /** So it is all through a log, for locators that find ends within the text. */
  lemma Framing(log: seq<Item>, k: nat, env: Env)
    requires LogOk(log, env) && k < |log|
    requires var mode := StateOf(log[..k], env).setting.mode; mode.Text? ==> Within(mode.locator)
    ensures Framed(log[k], StateOf(log[..k], env), env.size)
  {
    hide LogOk, StateOf, Inputs, Due, CString, TextEnd, Framed, Fits;
    FrontOk(log, k, env);
    ItemFramed(StateOf(log[..k], env), log[k], env);
  }

  lemma ItemFramed(s: State, e: Item, env: Env)
    requires Fits(e, s, env) && (s.setting.mode.Text? ==> Within(s.setting.mode.locator))
    ensures Framed(e, s, env.size)
  {
    if e.Skipped? { StripNone(e.nuls); }
    if e.TextMessage? {
      var str := CString(s.pending);
      assert e.text == s.pending[..|e.text|] == str[..|e.text|];
    }
  }

  /** What went out is what was delivered, up to the NUL bytes dropped. */
  lemma {:induction false} OnlyNulsDropped(log: seq<Item>, env: Env)
    requires LogOk(log, env)
    ensures Strip(Flow(log)) == Strip(Delivered(log))
    ensures (forall i :: 0 <= i < |log| ==> !log[i].Skipped?) ==> Flow(log) == Delivered(log)
  {
    if log != [] {
      var front, e := log[..|log| - 1], log[|log| - 1];
      OnlyNulsDropped(front, env);
      if e.Skipped? { StripNone(e.nuls); }
      StripBoth(Flow(front), Taken(e));
      StripBoth(Delivered(front), Given(e));
    }
  }

  ghost predicate NoText(e: Item) {
    match e
    case Asked(op) => !op.ReceiveText?
    case BinaryMessage(_, ops) => forall i :: 0 <= i < |ops| ==> !ops[i].ReceiveText?
    case _ => true
  }

  lemma {:induction false} AskedBinary(st: Setting, ops: seq<Op>, size: nat)
    requires st.mode.Binary? && forall i :: 0 <= i < |ops| ==> !ops[i].ReceiveText?
    ensures AskAll(st, ops, size).mode.Binary?
  {
    if ops != [] { AskedBinary(st, ops[..|ops| - 1], size); }
  }

  /** As long as no texts are asked for, nothing is dropped. */
  lemma {:induction false} NoTextNoSkip(log: seq<Item>, env: Env)
    requires LogOk(log, env) && forall i :: 0 <= i < |log| ==> NoText(log[i])
    ensures StateOf(log, env).setting.mode.Binary? && forall i :: 0 <= i < |log| ==> !log[i].Skipped?
  {
    if log != [] {
      var front, e := log[..|log| - 1], log[|log| - 1];
      NoTextNoSkip(front, env);
      if e.BinaryMessage? { AskedBinary(StateOf(front, env).setting, e.ops, env.size); }
    }
  }

  // ----- The connection -----

  ghost predicate GoodLocator(locator: Locator, patient: bool) {
    Within(locator) && (patient || Strict(locator))
  }

  ghost predicate GoodOp(op: Op, patient: bool) {
    op.ReceiveText? ==> GoodLocator(op.locator, patient)
  }

  ghost predicate GoodOps(ops: seq<Op>, patient: bool) {
    forall i :: 0 <= i < |ops| ==> GoodOp(ops[i], patient)
  }

  /** An empty message may come, again and again. */
  ghost predicate MayStick(st: Setting) {
    st.mode.Text? && !Strict(st.mode.locator)
  }

  /** The handler does not leave it so in all its calls from some time on. */
  ghost predicate Patient(env: Env, rank: nat -> nat) {
    forall n: nat, st: Setting ::
      Marks(env.handler(n)) == 0 && MayStick(AskAll(st, env.handler(n), env.size)) ==> rank(n + 1) < rank(n)
  }

  lemma NearerEnd(env: Env, rank: nat -> nat, st: Setting, n: nat)
    requires Patient(env, rank)
    ensures Marks(env.handler(n)) > 0 || !MayStick(AskAll(st, env.handler(n), env.size)) || rank(n + 1) < rank(n)
  {
    hide Marks, AskAll, MayStick;
  }

  /** `got` are the first reads of what `source` held: each took what there was, as far as there was room. */
  ghost predicate FromSource(got: seq<Item>, source: seq<Bytes>) {
    |got| <= |source| && forall k :: 0 <= k < |got| ==> FrontRead(got[k], source[k])
  }

  ghost predicate FrontRead(e: Item, there: Bytes) {
    e.Read? && e.bytes == if |there| <= e.room then there else there[..e.room]
  }

  /** Each read got all it wanted. */
  ghost predicate AllFull(got: seq<Item>) {
    forall k :: 0 <= k < |got| ==> Full(got[k])
  }

  ghost predicate Full(e: Item) {
    e.Read? && |e.bytes| == e.room
  }

  lemma NoReads(source: seq<Bytes>)
    ensures FromSource([], source) && AllFull([])
  {}

  lemma OneMoreRead(got: seq<Item>, source: seq<Bytes>, e: Item)
    requires FromSource(got, source) && |got| < |source| && FrontRead(e, source[|got|])
    ensures FromSource(got + [e], source) && (got + [e])[..|got|] == got
    ensures AllFull(got) && Full(e) ==> AllFull(got + [e])
  {}

  lemma FrontFull(got: seq<Item>)
    requires AllFull(got)
    ensures got != [] ==> AllFull(got[..|got| - 1])
  {}

  class Receiver {
    const tls: bool
    const rdbufsz: nat
    const rdbuf: array<Byte>
    const handler: nat -> seq<Op>
    var rdbufused: nat
    var rdbufpos: nat
    var rdexpect: nat
    var mode: Mode
    var rdtextsave: Byte
    var handling: nat
    var calls: nat
    var readagain: bool

    // Everything that happened; whether the loop that raises events is running; and
    // why it ends if locators may find empty messages.
    ghost var log: seq<Item>
    ghost var busy: bool
    ghost const patient: bool
    ghost const rank: nat -> nat

    ghost function Fixed(): Env {
      Env(rdbufsz, handler)
    }

    ghost predicate Sound() {
      && rdbufsz > 0 && rdbuf.Length == rdbufsz + 1
      && (forall n: nat :: GoodOps(handler(n), patient)) && (patient ==> Patient(Fixed(), rank))
    }

    ghost predicate Settled()
      reads this`rdexpect, this`mode
    {
      rdexpect <= rdbufsz && (mode.Text? ==> GoodLocator(mode.locator, patient))
    }

    ghost predicate Shaped()
      reads this, rdbuf
    {
      && Sound() && Settled() && (readagain ==> tls)
      && (rdbufused == 0 ==> rdbufpos == 0 && rdtextsave == 0)
      && (rdbufused > 0 ==> rdbufpos < rdbufused <= rdbufsz && rdbuf[rdbufused] == 0)
    }

    /** What is in the buffer, with the byte a NUL was put over. */
    ghost function Pending(): (p: Bytes)
      requires Shaped()
      reads this, rdbuf
      ensures |p| == rdbufused - rdbufpos
    {
      if rdtextsave != 0 then [rdtextsave] + rdbuf[rdbufpos + 1..rdbufused] else rdbuf[rdbufpos..rdbufused]
    }

    ghost function Now(): State
      requires Shaped()
      reads this, rdbuf
    {
      State(Pending(), Setting(mode, rdexpect), handling, calls, busy)
    }

    /** The reference, fed with the log, is in the same state. */
    ghost predicate Traced()
      reads this, rdbuf
    {
      Shaped() && LogOk(log, Fixed()) && StateOf(log, Fixed()) == Now()
    }

    /** At rest; when no handler is at work, there is room for the next read. */
    ghost predicate Valid()
      reads this, rdbuf
    {
      Traced() && !busy && (handling == 0 ==> rdtextsave == 0 && rdbufpos == 0 && rdbufused < rdbufsz)
    }

    constructor (size: nat, tls: bool, handler: nat -> seq<Op>, ghost patient: bool, ghost rank: nat -> nat)
      requires size > 0 && (forall n: nat :: GoodOps(handler(n), patient))
      requires patient ==> Patient(Env(size, handler), rank)
      ensures Valid() && rdbufsz == size && this.tls == tls && this.handler == handler && this.patient == patient
      ensures log == [] && calls == handling == rdbufused == rdexpect == 0 && mode == Binary && fresh(rdbuf)
    {
      this.tls, this.handler, this.patient, this.rank := tls, handler, patient, rank;
      rdbufsz := size;
      rdbuf := new Byte[size + 1];
      rdbufused, rdbufpos, rdexpect, rdtextsave, handling, calls := 0, 0, 0, 0, 0, 0;
      mode, readagain := Binary, false;
      log, busy := [], false;
    }

    ghost method Note(e: Item)
      requires LogOk(log, Fixed()) && Fits(e, StateOf(log, Fixed()), Fixed())
      modifies this`log
      ensures log == old(log) + [e] && Inputs(log) == Inputs(old(log)) + if IsInput(e) then [e] else []
      ensures LogOk(log, Fixed()) && StateOf(log, Fixed()) == After(old(StateOf(log, Fixed())), e, Fixed())
    {
      hide LogOk, StateOf, Inputs, Fits, After;
      OneMoreItem(log, e, Fixed());
      log := log + [e];
    }

    /** PSC_Connection_receiveBinary, receiveText and receiveLine, and PSC_EADataReceived_markHandling. */
    method Apply(op: Op) returns (ok: bool)
      requires Settled() && GoodOp(op, patient)
      modifies this`rdexpect, this`mode, this`handling
      ensures Settled() && ok == (op.ReceiveBinary? ==> op.expected <= rdbufsz)
      ensures mode == if !ok || op.MarkHandling? then old(mode)
                      else if op.ReceiveText? then Text(op.locator) else Binary
      ensures rdexpect == if ok && op.ReceiveBinary? then op.expected else old(rdexpect)
      ensures handling == old(handling) + if op.MarkHandling? then 1 else 0
      ensures Setting(mode, rdexpect) == Ask(old(Setting(mode, rdexpect)), op, rdbufsz)
      ensures handling == old(handling) + Marks([op])
    {
      hide GoodLocator;
      assert [op][..0] == [];
      ok := true;
      match op
      case ReceiveBinary(expected) =>
        if expected > rdbufsz { return false; }
        mode, rdexpect := Binary, expected;
      case ReceiveText(locator) =>
        mode := Text(locator);
      case MarkHandling =>
        handling := handling + 1;
    }

    /** A request from outside a handler. */
    method AskFor(op: Op) returns (ok: bool)
      requires Valid() && GoodOp(op, patient)
      modifies this`rdexpect, this`mode, this`handling, this`log
      ensures Valid() && log == old(log) + [Asked(op)] && Inputs(log) == Inputs(old(log)) + [Asked(op)]
      ensures ok == (op.ReceiveBinary? ==> op.expected <= rdbufsz) && Pending() == old(Pending())
      ensures mode == if !ok || op.MarkHandling? then old(mode)
                      else if op.ReceiveText? then Text(op.locator) else Binary
      ensures rdexpect == if ok && op.ReceiveBinary? then op.expected else old(rdexpect)
      ensures handling == old(handling) + if op.MarkHandling? then 1 else 0
    {
      hide LogOk, StateOf, Inputs, GoodLocator, GoodOps, Patient, Ask, Marks;
      Note(Asked(op));
      ok := Apply(op);
    }

    /** All that the handler does in one call. */
    method Handle(ops: seq<Op>)
      requires Settled() && GoodOps(ops, patient)
      modifies this`rdexpect, this`mode, this`handling
      ensures Settled() && handling == old(handling) + Marks(ops)
      ensures Setting(mode, rdexpect) == AskAll(old(Setting(mode, rdexpect)), ops, rdbufsz)
    {
      hide GoodLocator, Ask;
      for i := 0 to |ops|
        invariant Settled() && handling == old(handling) + Marks(ops[..i])
        invariant Setting(mode, rdexpect) == AskAll(old(Setting(mode, rdexpect)), ops[..i], rdbufsz)
      {
        assert ops[..i + 1][..i] == ops[..i];
        var _ := Apply(ops[i]);
      }
      assert ops[..|ops|] == ops;
    }

    /** Putting back the byte that a NUL was put over. */
    method Restore()
      requires Shaped() && rdbufused > 0
      modifies this`rdtextsave, rdbuf
      ensures Shaped() && rdtextsave == 0 && Pending() == old(Pending())
    {
      hide GoodLocator, GoodOps, Patient;
      if rdtextsave != 0 {
        rdbuf[rdbufpos] := rdtextsave;
        rdtextsave := 0;
        assert rdbuf[rdbufpos..rdbufused] == [rdbuf[rdbufpos]] + rdbuf[rdbufpos + 1..rdbufused];
      }
    }

    /** Dropping NUL bytes in front of a text. */
    method SkipNuls()
      requires Traced() && busy && rdbufused > 0 && rdtextsave == 0 && mode.Text? && handling == 0
      modifies this`rdbufpos, this`rdbufused, this`log
      ensures Traced() && Inputs(log) == Inputs(old(log))
      ensures rdbufused > 0 ==> rdbufused == old(rdbufused) && rdbuf[rdbufpos] != 0
      ensures rdbufused == 0 ==> AtEnd()
      ensures var n := LeadingNuls(old(Pending()));
              && Pending() == old(Pending())[n..] && (rdbufused > 0 ==> rdbufpos == old(rdbufpos) + n)
              && log == old(log) + if n == 0 then [] else [Skipped(old(Pending())[..n])]
    {
      hide LogOk, StateOf, Inputs, LeadingNuls, TextEnd, GoodLocator, GoodOps, Patient;
      ghost var start, all := rdbufpos, Pending();
      var pos := PassNuls();
      ghost var n := pos - start;
      assert all[n..] == rdbuf[pos..rdbufused];
      NulsCounted(all, n);
      if n > 0 { Note(Skipped(all[..n])); } else { assert all[n..] == all; }
      rdbufpos := pos;
      if rdbufpos == rdbufused { rdbufpos, rdbufused := 0, 0; }
    }

    method PassNuls() returns (pos: nat)
      requires Shaped() && rdbufused > 0
      ensures rdbufpos <= pos <= rdbufused && (forall i :: rdbufpos <= i < pos ==> rdbuf[i] == 0)
      ensures pos < rdbufused ==> rdbuf[pos] != 0
    {
      hide GoodLocator, GoodOps, Patient;
      pos := rdbufpos;
      while pos < rdbufused && rdbuf[pos] == 0
        invariant rdbufpos <= pos <= rdbufused && forall i :: rdbufpos <= i < pos ==> rdbuf[i] == 0
      {
        pos := pos + 1;
      }
    }

    /** The byte at `len` and what follows, with the byte there restored. */
    ghost predicate Behind(len: nat, rest: Bytes)
      reads this, rdbuf
    {
      && rdbuf.Length == rdbufsz + 1 && rdbufpos < rdbufused <= rdbufsz && rdbufpos + len <= rdbufused
      && rdbuf[rdbufused] == 0 && (rdbufpos + len == rdbufused ==> rdtextsave == 0)
      && rest == if rdtextsave != 0 then [rdtextsave] + rdbuf[rdbufpos + len + 1..rdbufused]
                 else rdbuf[rdbufpos + len..rdbufused]
    }

    /** The handler's call, and moving on behind the message. */
    method HandOut(len: nat, ghost rest: Bytes)
      requires Sound() && Settled() && (readagain ==> tls) && Behind(len, rest)
      modifies this`rdbufpos, this`rdbufused, this`rdexpect, this`mode, this`handling, this`calls
      ensures Shaped() && Pending() == rest && calls == old(calls) + 1
      ensures handling == old(handling) + Marks(handler(old(calls)))
      ensures Setting(mode, rdexpect) == AskAll(old(Setting(mode, rdexpect)), handler(old(calls)), rdbufsz)
    {
      hide GoodLocator, GoodOps, Patient, AskAll, Marks;
      Handle(handler(calls));
      calls := calls + 1;
      assert |rest| == rdbufused - rdbufpos - len;
      rdbufpos := rdbufpos + len;
      if rdbufpos == rdbufused { rdbufused, rdbufpos := 0, 0; }
    }

    /** Delivering a message: a text ends in a NUL put over what comes next. */
    method Deliver(len: nat, ghost e: Item)
      requires Traced() && busy && rdbufused > 0 && rdtextsave == 0 && handling == 0
      requires e == Due(Now(), Fixed()) && len <= |Pending()|
      requires e == if mode.Text? then TextMessage(Pending()[..len], handler(calls))
                    else BinaryMessage(Pending()[..len], handler(calls))
      modifies this`rdbufpos, this`rdbufused, this`rdexpect, this`mode, this`handling, this`calls, this`rdtextsave,
               this`log, rdbuf
      ensures Traced() && log == old(log) + [e] && Inputs(log) == Inputs(old(log))
      ensures Now() == Called(old(Now()), len, handler(old(calls)), Fixed())
    {
      hide LogOk, StateOf, Inputs, Due, AskAll, Marks, GoodLocator, GoodOps, Patient;
      ghost var pending := Pending();
      Note(e);
      if mode.Text? { CutOff(len); } else { assert pending[len..] == rdbuf[rdbufpos + len..rdbufused]; }
      HandOut(len, pending[len..]);
    }

    method CutOff(len: nat)
      requires Shaped() && rdbufused > 0 && rdtextsave == 0 && len <= rdbufused - rdbufpos
      modifies this`rdtextsave, rdbuf
      ensures Behind(len, old(Pending())[len..])
    {
      hide GoodLocator, GoodOps, Patient;
      ghost var rest := rdbuf[rdbufpos + len..rdbufused];
      assert Pending()[len..] == rest;
      rdtextsave := rdbuf[rdbufpos + len];
      rdbuf[rdbufpos + len] := 0;
    }

    /** A turn of the loop in text mode; `go` unless there is no complete message. */
    method TextTurn() returns (go: bool)
      requires Traced() && busy && rdbufused > 0 && rdtextsave == 0 && mode.Text? && handling == 0
      modifies this, rdbuf
      ensures Traced() && busy && readagain == old(readagain) && Inputs(log) == Inputs(old(log))
      ensures var n := LeadingNuls(old(Pending()));
              var text := old(Pending())[n..];
              var end := TextEnd(old(mode.locator), text, |text| == rdbufsz);
              var skipped := if n == 0 then [] else [Skipped(old(Pending())[..n])];
              && go == end.Some?
              && if go then
                   && log == old(log) + skipped + [TextMessage(text[..end.value], handler(old(calls)))]
                   && Pending() == text[end.value..] && calls == old(calls) + 1
                   && Setting(mode, rdexpect) == AskAll(old(Setting(mode, rdexpect)), handler(old(calls)), rdbufsz)
                 else log == old(log) + skipped && Pending() == text
      ensures go ==> Progress(old(|Pending()|), old(Setting(mode, rdexpect)), old(calls))
      ensures !go ==> AtEnd()
    {
      hide LogOk, StateOf, Inputs, LeadingNuls, TextEnd, Strict, GoodOps, AskAll, Marks, GoodLocator, Patient, Due,
        Receiver.AtEnd;
      SkipNuls();
      if rdbufused == 0 { return false; }
      go := FrontTurn();
    }

    /** The rest of the turn, behind the NUL bytes. */
    method FrontTurn() returns (go: bool)
      requires Traced() && busy && rdbufused > 0 && rdtextsave == 0 && mode.Text? && handling == 0
      requires rdbuf[rdbufpos] != 0
      modifies this, rdbuf
      ensures Traced() && busy && readagain == old(readagain) && Inputs(log) == Inputs(old(log))
      ensures var end := TextEnd(old(mode.locator), old(Pending()), |old(Pending())| == rdbufsz);
              && go == end.Some?
              && if go then
                   && log == old(log) + [TextMessage(old(Pending())[..end.value], handler(old(calls)))]
                   && Pending() == old(Pending())[end.value..] && calls == old(calls) + 1
                   && Setting(mode, rdexpect) == AskAll(old(Setting(mode, rdexpect)), handler(old(calls)), rdbufsz)
                 else log == old(log) && Pending() == old(Pending())
      ensures go ==> Progress(old(|Pending()|), old(Setting(mode, rdexpect)), old(calls))
      ensures !go ==> AtEnd()
    {
      hide LogOk, StateOf, Inputs, TextEnd, Strict, GoodOps, AskAll, Marks, Due, GoodLocator, Patient, Receiver.AtEnd;
      DueText(Now(), Fixed());
      var len := FindEnd();
      if len.None? { return false; }
      if len.value == 0 { NearerEnd(Fixed(), rank, Setting(mode, rdexpect), calls); }
      Deliver(len.value, TextMessage(Pending()[..len.value], handler(calls)));
      go := true;
    }

    /** Where the text in front ends, if it can be delivered. */
    method FindEnd() returns (len: Option<nat>)
      requires Shaped() && rdbufused > 0 && rdtextsave == 0 && mode.Text? && rdbuf[rdbufpos] != 0
      ensures len == TextEnd(mode.locator, Pending(), |Pending()| == rdbufsz)
      ensures len == Some(0) ==> MayStick(Setting(mode, rdexpect)) && patient
      ensures len.None? ==> AtEnd()
    {
      hide GoodOps, Patient;
      assert LeadingNuls(Pending()) == 0;
      var str := CString(rdbuf[rdbufpos..rdbufused]);
      var end := mode.locator(str);
      if end.Some? {
        return Some(if end.value > rdbufused - rdbufpos then rdbufused - rdbufpos else end.value);
      } else if rdbufpos > 0 || rdbufused < rdbufsz {
        return None;
      }
      len := Some(|str|);
    }

    method BinaryTurn() returns (go: bool)
      requires Traced() && busy && rdbufused > 0 && rdtextsave == 0 && mode.Binary? && handling == 0
      modifies this, rdbuf
      ensures Traced() && busy && readagain == old(readagain) && Inputs(log) == Inputs(old(log))
      ensures go == (old(rdexpect) <= |old(Pending())|)
      ensures if !go then log == old(log)
              else
                var n := if old(rdexpect) > 0 then old(rdexpect) else |old(Pending())|;
                && log == old(log) + [BinaryMessage(old(Pending())[..n], handler(old(calls)))]
                && Pending() == old(Pending())[n..] && calls == old(calls) + 1
                && Setting(mode, rdexpect) == AskAll(old(Setting(mode, rdexpect)), handler(old(calls)), rdbufsz)
      ensures go ==> Progress(old(|Pending()|), old(Setting(mode, rdexpect)), old(calls))
      ensures !go ==> AtEnd()
    {
      hide LogOk, StateOf, Inputs, GoodLocator, Patient, GoodOps;
      var len := rdbufused - rdbufpos;
      if rdexpect > 0 {
        if rdexpect > len { return false; }
        len := rdexpect;
      }
      Deliver(len, BinaryMessage(Pending()[..len], handler(calls)));
      go := true;
    }

    /** A turn leaves less in the buffer, or was an empty message whose handler brings the loop nearer to its end. */
    ghost predicate Progress(was: nat, st: Setting, call: nat)
      requires Shaped()
      reads this, rdbuf
    {
      || |Pending()| < was
      || (|Pending()| == was && MayStick(st)
          && (handling > 0 || !MayStick(Setting(mode, rdexpect)) || rank(calls) < rank(call)))
    }

    /** Nothing is due, and an incomplete message leaves room, or will once it is moved to the front. */
    ghost predicate AtEnd()
      requires Shaped()
      reads this, rdbuf
    {
      && Due(Now(), Fixed()) == Rested && rdtextsave == 0
      && (rdbufused > 0 ==> if mode.Text? then rdbufpos > 0 || rdbufused < rdbufsz else rdbufused - rdbufpos < rdexpect)
    }

    /** Moving what is left to the front. */
    method Compact()
      requires Shaped() && rdbufused > 0
      modifies this`rdbufused, this`rdbufpos, rdbuf
      ensures Shaped() && Pending() == old(Pending())
      ensures rdbufpos == 0 && rdbufused == old(rdbufused) - old(rdbufpos)
    {
      hide GoodLocator, GoodOps, Patient;
      ghost var left := rdbuf[rdbufpos..rdbufused];
      var n := rdbufused - rdbufpos;
      forall i | 0 <= i < n { rdbuf[i] := rdbuf[rdbufpos + i]; }
      assert rdbuf[0..n] == left;
      rdbufused, rdbufpos := n, 0;
      rdbuf[n] := 0;
      assert rdbuf[0..n] == left;
      assert rdtextsave != 0 ==> left[1..] == rdbuf[1..n];
    }

    method Turn() returns (go: bool)
      requires Traced() && busy && rdbufused > 0 && rdtextsave == 0 && handling == 0
      modifies this, rdbuf
      ensures Traced() && busy && readagain == old(readagain) && old(log) <= log && Inputs(log) == Inputs(old(log))
      ensures go ==> Progress(old(|Pending()|), old(Setting(mode, rdexpect)), old(calls))
      ensures !go ==> AtEnd()
      ensures old(Due(Now(), Fixed())) == Rested ==>
                !go && log == old(log) && Pending() == old(Pending()) && handling == 0
    {
      hide LogOk, StateOf, Inputs, CString, TextEnd, GoodLocator, GoodOps, Patient, AskAll, Marks, Receiver.AtEnd;
      if mode.Text? { go := TextTurn(); } else { go := BinaryTurn(); }
    }

    /**
     raisereceivedevents: all that is due happens. When it ends with no handler at
     work, no complete message is left.
     */
    method RaiseReceived()
      requires Traced() && busy
      modifies this, rdbuf
      ensures Valid() && readagain == old(readagain) && Inputs(log) == Inputs(old(log))
      ensures old(log) < log && log[|log| - 1] == Rested
      ensures Due(Now(), Fixed()) == Rested
      ensures old(Due(Now(), Fixed())) == Rested ==>
                log == old(log) + [Rested] && Pending() == old(Pending()) && handling == old(handling)
    {
      hide LogOk, StateOf, Inputs, Due, GoodLocator, GoodOps, Patient, Strict, Receiver.AtEnd, Receiver.Pending;
      var go := true;
      while go && handling == 0 && rdbufused > 0
        invariant Traced() && busy && readagain == old(readagain)
        invariant old(log) <= log && Inputs(log) == Inputs(old(log))
        invariant !go ==> AtEnd()
        invariant old(Due(Now(), Fixed())) == Rested ==>
                    log == old(log) && Pending() == old(Pending()) && handling == old(handling)
        decreases go, rdbufused - rdbufpos, handling == 0, MayStick(Setting(mode, rdexpect)), rank(calls)
      {
        Restore();
        go := Turn();
      }
      Finish();
    }

    /** Nothing is due any more. */
    method Finish()
      requires Traced() && busy && (handling == 0 && rdbufused > 0 ==> AtEnd())
      modifies this`rdbufused, this`rdbufpos, this`log, this`busy, rdbuf
      ensures Valid() && log == old(log) + [Rested] && Inputs(log) == Inputs(old(log))
      ensures Pending() == old(Pending()) && handling == old(handling) && Due(Now(), Fixed()) == Rested
    {
      hide LogOk, StateOf, Inputs, CString, TextEnd, GoodLocator, GoodOps, Patient, LeadingNuls;
      if rdbufused > 0 && (mode.Text? || rdbufused - rdbufpos < rdexpect) { Compact(); }
      Note(Rested);
      busy := false;
    }

    /** What was read comes behind what is there. */
    method Store(data: Bytes)
      requires Valid() && 0 < |data| <= rdbufsz - rdbufused
      modifies this`rdbufused, this`log, this`busy, rdbuf
      ensures Traced() && busy && Pending() == old(Pending()) + data
      ensures log == old(log) + [Read(data, rdbufsz - old(rdbufused))]
      ensures Inputs(log) == Inputs(old(log)) + [Read(data, rdbufsz - old(rdbufused))]
    {
      hide LogOk, StateOf, Inputs, Receiver.Sound, Receiver.Settled;
      Note(Read(data, rdbufsz - rdbufused));
      Append(data);
      busy := true;
    }

    method Append(data: Bytes)
      requires Shaped() && 0 < |data| <= rdbufsz - rdbufused
      modifies this`rdbufused, rdbuf
      ensures Shaped() && Pending() == old(Pending()) + data
    {
      hide GoodLocator, GoodOps, Patient;
      ghost var pos, used := rdbufpos, rdbufused;
      ghost var before := rdbuf[pos..used];
      forall i | 0 <= i < |data| { rdbuf[rdbufused + i] := data[i]; }
      rdbufused := rdbufused + |data|;
      rdbuf[rdbufused] := 0;
      assert rdbuf[pos..rdbufused] == before + data;
      if pos < used {
        assert rdbuf[pos + 1..rdbufused] == rdbuf[pos..rdbufused][1..];
        assert (before + data)[1..] == before[1..] + data;
      }
    }

    method TakeIn(data: Bytes)
      requires Valid() && 0 < |data| <= rdbufsz - rdbufused
      modifies this, rdbuf
      ensures Valid() && readagain == old(readagain) && old(log) < log && Due(Now(), Fixed()) == Rested
      ensures Inputs(log) == Inputs(old(log)) + [Read(data, rdbufsz - old(rdbufused))]
    {
      hide LogOk, StateOf, Inputs, Due, Receiver.Sound, Receiver.Settled, Receiver.Pending;
      Store(data);
      RaiseReceived();
    }

    /** One read; an empty portion stands for none. */
    method ReadOnce(portion: Bytes)
      requires Valid() && |portion| <= rdbufsz - rdbufused
      modifies this, rdbuf
      ensures Valid() && readagain == (tls && portion != [] && |portion| == old(rdbufsz - rdbufused))
      ensures portion == [] ==> log == old(log) && rdbufused == old(rdbufused)
      ensures portion == [] ==> Now() == old(Now())
      ensures portion != [] ==>
                old(log) < log && Inputs(log) == Inputs(old(log)) + [Read(portion, rdbufsz - old(rdbufused))]
                && Due(Now(), Fixed()) == Rested
    {
      hide LogOk, StateOf, Inputs, Due, GoodLocator, Receiver.Sound, Receiver.Pending, Receiver.Settled;
      var room := rdbufsz - rdbufused;
      SetAgain(tls && portion != [] && |portion| == room);
      if portion != [] { TakeIn(portion); }
    }

    method SetAgain(again: bool)
      requires Valid() && (again ==> tls)
      modifies this`readagain
      ensures Valid() && readagain == again && Now() == old(Now())
    {
      hide LogOk, StateOf, Receiver.Sound, Receiver.Settled;
      readagain := again;
    }

    /** Reading the first bytes of a text that cannot be delivered yet: they wait. */
    method ReadIncomplete(data: Bytes)
      requires Valid() && handling == 0 && mode.Text? && rdbufused == 0
      requires data != [] && data[0] != 0 && |data| < rdbufsz && TextEnd(mode.locator, data, false).None?
      modifies this, rdbuf
      ensures Valid() && log == old(log) + [Read(data, rdbufsz), Rested] && Pending() == data && handling == 0
    {
      hide LogOk, StateOf, Inputs, Due, CString, TextEnd, Receiver.Pending, Receiver.Sound, Receiver.Settled;
      assert Pending() == [];
      Store(data);
      assert Pending() == data;
      DueText(Now(), Fixed());
      RaiseReceived();
    }

    /**
     doread, also while a handler is at work. The k-th read finds `source[k]`, and
     nothing beyond. With TLS it reads again as long as it got all it wanted and no
     handler is at work.
     */
    method DoRead(source: seq<Bytes>) returns (ghost got: seq<Item>)
      requires Valid()
      modifies this, rdbuf
      ensures Valid() && old(log) <= log && Inputs(log) == Inputs(old(log)) + got
      ensures FromSource(got, source) && (!tls ==> |got| <= 1) && (got != [] ==> AllFull(got[..|got| - 1]))
      ensures got != [] ==> got[0].room == rdbufsz - old(rdbufused) && Due(Now(), Fixed()) == Rested
      ensures got == [] ==> log == old(log) && rdbufused == old(rdbufused) && Now() == old(Now())
      ensures source != [] && source[0] != [] && old(rdbufused) < rdbufsz ==> got != []
      ensures handling == 0 && tls && got != [] && Full(got[|got| - 1]) && |got| < |source| ==> source[|got|] == []
    {
      hide LogOk, StateOf, Inputs, Due, Receiver.Sound, Receiver.Settled, Receiver.Pending, FromSource, AllFull;
      got := [];
      NoReads(source);
      var k, more := 0, true;
      while more
        invariant Valid() && old(log) <= log && Inputs(log) == Inputs(old(log)) + got
        invariant if more then |got| == k else 0 < k && |got| <= k <= |got| + 1
        invariant FromSource(got, source) && (!tls ==> k <= 1 && (more ==> k == 0))
        invariant k <= |source| + (if more then 0 else 1) && |got| <= |source| && (got != [] ==> got[0].Read?)
        invariant got != [] ==> got[0].room == rdbufsz - old(rdbufused) && Due(Now(), Fixed()) == Rested
        invariant got == [] ==> log == old(log) && rdbufused == old(rdbufused) && Now() == old(Now())
        invariant if more then AllFull(got) else got != [] ==> AllFull(got[..|got| - 1])
        invariant more && k > 0 ==> handling == 0
        invariant !more && got == [] ==> source == [] || source[0] == [] || old(rdbufused) == rdbufsz
        invariant !more && handling == 0 && tls && got != [] && Full(got[|got| - 1]) && |got| < |source| ==>
                    source[|got|] == []
        decreases |source| + 1 - k, more
      {
        var want := rdbufsz - rdbufused;
        var portion := if k == |source| then [] else if |source[k]| <= want then source[k] else source[k][..want];
        ReadOnce(portion);
        if portion != [] {
          OneMoreRead(got, source, Read(portion, want));
          got := got + [Read(portion, want)];
        } else {
          FrontFull(got);
        }
        more := readagain && handling == 0;
        k := k + 1;
      }
    }

    /** readConnection: while a handler is at work nothing is read. */
    method ReadReady(source: seq<Bytes>) returns (ghost got: seq<Item>)
      requires Valid()
      modifies this, rdbuf
      ensures Valid() && old(log) <= log && Inputs(log) == Inputs(old(log)) + got
      ensures FromSource(got, source) && (!tls ==> |got| <= 1) && (got != [] ==> AllFull(got[..|got| - 1]))
      ensures old(handling) > 0 ==> got == [] && log == old(log) && Now() == old(Now())
      ensures old(handling) == 0 && source != [] && source[0] != [] ==>
                got != [] && got[0].room == rdbufsz - old(rdbufused)
      ensures got != [] ==> Due(Now(), Fixed()) == Rested
      ensures handling == 0 && tls && got != [] && Full(got[|got| - 1]) && |got| < |source| ==> source[|got|] == []
    {
      hide LogOk, StateOf, Inputs, Due, GoodLocator, Receiver.Sound;
      got := [];
      if handling == 0 { got := DoRead(source); } else { assert Inputs(log) == Inputs(old(log)) + got; }
    }

    /**
     PSC_Connection_confirmDataReceived: the last confirmation lets messages flow
     again, and with TLS reads again if the last read was cut short by the buffer.
     */
    method Confirm(source: seq<Bytes>) returns (rc: int, ghost got: seq<Item>)
      requires Valid()
      modifies this, rdbuf
      ensures Valid() && rc == if old(handling) == 0 then -1 else if old(handling) == 1 then 1 else 0
      ensures old(log) <= log && Inputs(log) == Inputs(old(log)) + (if rc == -1 then [] else [Confirmed]) + got
      ensures rc != 1 || !old(readagain) ==> got == []
      ensures FromSource(got, source) && (!tls ==> |got| <= 1) && (got != [] ==> AllFull(got[..|got| - 1]))
      ensures rc == 1 && old(readagain) && source != [] && source[0] != [] && got == [] ==>
                handling > 0 && rdbufused == rdbufsz
      ensures rc == 1 ==> Due(Now(), Fixed()) == Rested
      ensures rc == 0 ==> log == old(log) + [Confirmed] && handling == old(handling) - 1
      ensures rc == -1 ==> log == old(log)
    {
      hide LogOk, StateOf, Inputs, Due, Receiver.Sound, Receiver.Settled, Receiver.Pending, AllFull, FromSource;
      got := [];
      NoReads(source);
      if handling == 0 { return -1, []; }
      CountDown();
      if handling > 0 { return 0, []; }
      RaiseReceived();
      if readagain { got := DoRead(source); }
      rc := 1;
    }

    method CountDown()
      requires Valid() && handling > 0
      modifies this`handling, this`log, this`busy
      ensures Traced() && handling == old(handling) - 1 && busy == (handling == 0) && (busy || Valid())
      ensures log == old(log) + [Confirmed] && Inputs(log) == Inputs(old(log)) + [Confirmed]
    {
      hide LogOk, StateOf, Inputs, GoodLocator, GoodOps, Patient;
      Note(Confirmed);
      handling := handling - 1;
      busy := handling == 0;
    }
  }

  datatype Action = Arrive(source: seq<Bytes>) | AskAction(op: Op) | ConfirmAction(source: seq<Bytes>)

  /** An action puts reads from its source, its request, or its confirmation with what is read then, into the log. */
  ghost predicate ActionOk(action: Action, before: seq<Item>, after: seq<Item>, env: Env, tls: bool) {
    var handling := StateOf(before, env).handling;
    before <= after && Inputs(before) <= Inputs(after)
    && var put := Inputs(after)[|Inputs(before)|..];
    match action
    case Arrive(source) =>
      && FromSource(put, source) && (!tls ==> |put| <= 1) && (handling > 0 ==> after == before)
      && (handling == 0 && source != [] && source[0] != [] ==> put != [])
    case AskAction(op) => after == before + [Asked(op)]
    case ConfirmAction(source) =>
      if handling == 0 then after == before
      else if handling > 1 then after == before + [Confirmed]
      else put != [] && put[0] == Confirmed && FromSource(put[1..], source) && (!tls ==> |put| == 1)
  }

  /**
   Any run of reads, requests and confirmations, whatever the handler asks for: the log
   is that of the reference, with what each action puts in; so (`SameInputsSameLog`)
   every message, its handler's requests and every NUL byte dropped are determined.
   What was read is what the log took out of the buffer, in order, and what is
   pending; without texts, all of it is delivered, and with them all but NUL bytes.
   `logs` are the logs after each action.
   */
  method Run(r: Receiver, actions: seq<Action>) returns (ghost logs: seq<seq<Item>>)
    requires r.Valid() && r.log == []
    requires forall i :: 0 <= i < |actions| && actions[i].AskAction? ==> GoodOp(actions[i].op, r.patient)
    modifies r, r.rdbuf
    ensures r.Valid() && LogOk(r.log, r.Fixed()) && StateOf(r.log, r.Fixed()) == r.Now()
    ensures |logs| == |actions| + 1 && logs[0] == [] && logs[|actions|] == r.log
    ensures forall i :: 0 <= i < |actions| ==> ActionOk(actions[i], logs[i], logs[i + 1], r.Fixed(), r.tls)
    ensures Received(r.log) == Flow(r.log) + r.Pending()
    ensures (forall i :: 0 <= i < |r.log| ==> NoText(r.log[i])) ==> Received(r.log) == Delivered(r.log) + r.Pending()
    ensures Strip(Received(r.log)) == Strip(Delivered(r.log) + r.Pending())
  {
    logs := RunAll(r, actions);
    Conserved(r.log, r.Fixed());
    OnlyNulsDropped(r.log, r.Fixed());
    if forall i :: 0 <= i < |r.log| ==> NoText(r.log[i]) { NoTextNoSkip(r.log, r.Fixed()); }
    StripBoth(Delivered(r.log), r.Pending());
    StripBoth(Flow(r.log), r.Pending());
  }

  method RunAll(r: Receiver, actions: seq<Action>) returns (ghost logs: seq<seq<Item>>)
    requires r.Valid() && r.log == []
    requires forall i :: 0 <= i < |actions| && actions[i].AskAction? ==> GoodOp(actions[i].op, r.patient)
    modifies r, r.rdbuf
    ensures r.Valid() && |logs| == |actions| + 1 && logs[0] == [] && logs[|actions|] == r.log
    ensures forall i :: 0 <= i < |actions| ==> ActionOk(actions[i], logs[i], logs[i + 1], r.Fixed(), r.tls)
  {
    hide Receiver.Valid, ActionOk, GoodOp;
    logs := [[]];
    for i := 0 to |actions|
      invariant r.Valid() && |logs| == i + 1 && logs[0] == [] && logs[i] == r.log
      invariant forall j :: 0 <= j < i ==> ActionOk(actions[j], logs[j], logs[j + 1], r.Fixed(), r.tls)
    {
      Act(r, actions[i]);
      logs := logs + [r.log];
    }
  }

  method Act(r: Receiver, action: Action)
    requires r.Valid() && (action.AskAction? ==> GoodOp(action.op, r.patient))
    modifies r, r.rdbuf
    ensures r.Valid() && ActionOk(action, old(r.log), r.log, r.Fixed(), r.tls)
  {
    hide LogOk, StateOf, Inputs, Due, Receiver.Sound, Receiver.Settled, Receiver.Pending, FromSource, AllFull, Full;
    match action
    case Arrive(source) =>
      var got := r.ReadReady(source);
      assert Inputs(r.log)[|Inputs(old(r.log))|..] == got;
    case AskAction(op) =>
      var _ := r.AskFor(op);
    case ConfirmAction(source) =>
      var rc, got := r.Confirm(source);
      if rc == 1 { assert Inputs(r.log)[|Inputs(old(r.log))|..] == [Confirmed] + got; }
  }

  /** A whole line is read, but behind a NUL: it waits, as the buffer is not full and no line ends in front. */
  method NulHoldsBack(handler: nat -> seq<Op>) returns (r: Receiver)
    requires forall n: nat :: GoodOps(handler(n), false)
    ensures r.Valid() && r.Pending() == [0x61, 0, 0x62, LF] && r.handling == 0
    ensures r.log == [Asked(ReceiveText(LocateEol)), Read([0x61, 0, 0x62, LF], 8), Rested]
  {
    hide *;
    var data: Bytes := [0x61, 0, 0x62, LF];
    NoLineInFront(data);
    r := ReadingLines(handler);
    r.ReadIncomplete(data);
  }

  lemma NoLineInFront(data: Bytes)
    requires data == [0x61, 0, 0x62, LF]
    ensures TextEnd(LocateEol, data, false).None?
  {
    hide LocateEol, CString;
    CStringOf([0x61], [0x62, LF]);
    assert [0x61] + [0] + [0x62, LF] == data;
    LocateEolIsGood();
  }

  method ReadingLines(handler: nat -> seq<Op>) returns (r: Receiver)
    requires forall n: nat :: GoodOps(handler(n), false)
    ensures r.Valid() && r.handling == 0 && r.mode == Text(LocateEol) && r.rdbufused == 0 && r.rdbufsz == 8
    ensures r.log == [Asked(ReceiveText(LocateEol))] && fresh(r) && fresh(r.rdbuf)
  {
    hide LogOk, StateOf, Inputs, CString, LocateEol, Within, Strict, Due, Receiver.Sound;
    LocateEolIsGood();
    r := new Receiver(8, false, handler, false, n => 0);
    var _ := r.AskFor(ReceiveText(LocateEol));
  }
}
