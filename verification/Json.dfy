/**
 JSON values, their text, and the serializer (json.c): one recursive printer that
 works on a growing buffer and on a bounded one.
 */
module Json {
  import opened Common
  import opened Texts

  /** The properties of an object in their order, one for each key. */
  datatype Property = Property(key: Bytes, value: Value)

  /** A byte of a numeral with a fraction or an exponent. */
  predicate NumeralByte(b: Byte) {
    IsDigit(b, 10) || b in [0x2b, 0x2d, 0x2e, 0x45, 0x65]
  }

  /** Such a numeral; it stands for the floating-point number that strtod makes of it. */
  type Numeral = t: Bytes | t != [] && forall i :: 0 <= i < |t| ==> NumeralByte(t[i]) witness [0x30]

  /** An array or object without content is one that was never populated. */
  datatype Value =
    | Null
    | Bool(b: bool)
    | Integer(n: int)
    | Float(numeral: Numeral)
    | String(s: Bytes)
    | Array(items: seq<Value>)
    | Object(props: seq<Property>)

  const MIN_INT64: int := -0x8000_0000_0000_0000
  const MAX_INT64: int := 0x7fff_ffff_ffff_ffff

  const QUOTE: Byte := 0x22
  const PLUS: Byte := 0x2b
  const COMMA: Byte := 0x2c
  const MINUS: Byte := 0x2d
  const SLASH: Byte := 0x2f
  const COLON: Byte := 0x3a
  const OPEN_ARRAY: Byte := 0x5b
  const BACKSLASH: Byte := 0x5c
  const CLOSE_ARRAY: Byte := 0x5d
  const LOWER_U: Byte := 0x75
  const OPEN_OBJECT: Byte := 0x7b
  const CLOSE_OBJECT: Byte := 0x7d

  const LIT_NULL: Bytes := [0x6e, 0x75, 0x6c, 0x6c]
  const LIT_FALSE: Bytes := [0x66, 0x61, 0x6c, 0x73, 0x65]
  const LIT_TRUE: Bytes := [0x74, 0x72, 0x75, 0x65]

  // ---------------------------------------------------------------------
  // Objects

  /** PSC_Json_setProperty: a known key keeps its place, a new one goes last. */
  function SetProperty(props: seq<Property>, key: Bytes, value: Value): seq<Property> {
    if props == [] then [Property(key, value)]
    else if props[0].key == key then [Property(key, value)] + props[1..]
    else [props[0]] + SetProperty(props[1..], key, value)
  }

  /** PSC_Json_property. */
  function Lookup(props: seq<Property>, key: Bytes): Option<Value> {
    if props == [] then None
    else if props[0].key == key then Some(props[0].value)
    else Lookup(props[1..], key)
  }

  /** PSC_Json_itemAt on an object, for all indices. */
  function Keys(props: seq<Property>): seq<Bytes> {
    if props == [] then [] else [props[0].key] + Keys(props[1..])
  }

  ghost predicate DistinctKeys(props: seq<Property>) {
    forall i, j :: 0 <= i < j < |props| ==> props[i].key != props[j].key
  }

  lemma {:induction false} LookupKnows(props: seq<Property>, key: Bytes)
    ensures Lookup(props, key).None? <==> forall i :: 0 <= i < |props| ==> props[i].key != key
    ensures Lookup(props, key).None? <==> key !in Keys(props)
  {
    if props != [] {
      LookupKnows(props[1..], key);
      assert forall i :: 1 <= i < |props| ==> props[i] == props[1..][i - 1];
    }
  }

  /** Setting a property changes the value of that key only, and the key order only by appending a new key. */
  lemma {:induction false} SetPropertyIsUpdate(props: seq<Property>, key: Bytes, value: Value, other: Bytes)
    ensures Lookup(SetProperty(props, key, value), other) == if other == key then Some(value) else Lookup(props, other)
    ensures Keys(SetProperty(props, key, value)) == if key in Keys(props) then Keys(props) else Keys(props) + [key]
  {
    if props != [] && props[0].key != key {
      SetPropertyIsUpdate(props[1..], key, value, other);
      var more := SetProperty(props[1..], key, value);
      assert ([props[0]] + more)[1..] == more;
    }
  }

  lemma {:induction false} SetPropertyNew(props: seq<Property>, key: Bytes, value: Value)
    requires forall i :: 0 <= i < |props| ==> props[i].key != key
    ensures SetProperty(props, key, value) == props + [Property(key, value)]
  {
    if props != [] {
      SetPropertyNew(props[1..], key, value);
      assert props == [props[0]] + props[1..];
    }
  }

  /** No run of setProperty calls gives an object the same key twice. */
  lemma {:induction false} SetPropertyKeepsDistinct(props: seq<Property>, key: Bytes, value: Value)
    requires DistinctKeys(props)
    ensures DistinctKeys(SetProperty(props, key, value))
    ensures forall p :: p in SetProperty(props, key, value) ==> p in props || p == Property(key, value)
  {
    if props != [] && props[0].key != key {
      var rest := props[1..];
      SetPropertyKeepsDistinct(rest, key, value);
      var more := SetProperty(rest, key, value);
      forall i | 0 <= i < |more| ensures more[i].key != props[0].key {
        assert more[i] in rest || more[i] == Property(key, value);
      }
    }
  }

  // ---------------------------------------------------------------------
  // Text

  /** What serializePlainString writes for one byte. */
  function Escaped(b: Byte): Bytes {
    if b == QUOTE || b == BACKSLASH then [BACKSLASH, b]
    else if b == 0x08 then [BACKSLASH, 0x62]
    else if b == 0x0c then [BACKSLASH, 0x66]
    else if b == 0x0a then [BACKSLASH, 0x6e]
    else if b == 0x0d then [BACKSLASH, 0x72]
    else if b == 0x09 then [BACKSLASH, 0x74]
    else if b < 0x20 then [BACKSLASH, LOWER_U, 0x30, 0x30, DigitChar(b / 16), DigitChar(b % 16)]
    else [b]
  }

  /** The text of a string from its k-th byte, with the closing quote. */
  function StringRest(s: Bytes, k: nat): Bytes
    requires k <= |s|
    decreases |s| - k
  {
    if k == |s| then [QUOTE] else Escaped(s[k]) + StringRest(s, k + 1)
  }

  function StringText(s: Bytes): Bytes {
    [QUOTE] + StringRest(s, 0)
  }

  /** The printf conversion PRId64. */
  function IntegerText(n: int): Bytes {
    if n < 0 then [MINUS] + Digits(-n, 10) else Digits(n, 10)
  }

  function Width(v: Value): nat {
    match v
    case Array(items) => |items| + 1
    case Object(props) => |props| + 1
    case _ => 0
  }

  /**
   What the serializer writes for a value. (For a float it writes what printf makes of
   the number, not the numeral it was read from; floats are not `Serializable`.)
   */
  function Text(v: Value): Bytes
    decreases v, Width(v)
  {
    match v
    case Null => LIT_NULL
    case Bool(b) => if b then LIT_TRUE else LIT_FALSE
    case Integer(n) => IntegerText(n)
    case Float(numeral) => numeral
    case String(s) => StringText(s)
    case Array(items) => [OPEN_ARRAY] + ArrayRest(v, 0)
    case Object(props) => [OPEN_OBJECT] + ObjectRest(v, 0)
  }

  /** The separator before the k-th member of a container. */
  function Separator(k: nat): Bytes {
    if k == 0 then [] else [COMMA]
  }

  /** The text of an array from its k-th item. */
  function ArrayRest(v: Value, k: nat): Bytes
    requires v.Array? && k <= |v.items|
    decreases v, |v.items| - k
  {
    if k == |v.items| then [CLOSE_ARRAY] else (Separator(k) + Text(v.items[k])) + ArrayRest(v, k + 1)
  }

  function KeyText(k: nat, key: Bytes): Bytes {
    Separator(k) + StringText(key) + [COLON]
  }

  function ObjectRest(v: Value, k: nat): Bytes
    requires v.Object? && k <= |v.props|
    decreases v, |v.props| - k
  {
    if k == |v.props| then [CLOSE_OBJECT]
    else MemberText(k, v.props[k]) + ObjectRest(v, k + 1)
  }

  function MemberText(k: nat, p: Property): Bytes
    decreases p.value, Width(p.value) + 1
  {
    KeyText(k, p.key) + Text(p.value)
  }

  /**
   A value the API can build and the serializer can print: 64-bit integers, no
   floats, one property for each key, and no container that was never populated.
   */
  ghost predicate Serializable(v: Value) {
    match v
    case Integer(n) => MIN_INT64 <= n <= MAX_INT64
    case Float(_) => false
    case Array(items) => items != [] && forall i :: 0 <= i < |items| ==> Serializable(items[i])
    case Object(props) =>
      props != [] && DistinctKeys(props) && forall i :: 0 <= i < |props| ==> Serializable(props[i].value)
    case _ => true
  }

  /** The text is a C string: it has no NUL inside, whatever bytes the strings hold. */
  lemma {:induction false} TextHasNoNul(v: Value)
    ensures Text(v) != [] && NoNul(Text(v))
    decreases v, Width(v)
  {
    match v
    case Integer(n) => DigitsAreDigits(if n < 0 then -n else n, 10);
    case String(s) => StringHasNoNul(s, 0);
    case Array(items) => ArrayHasNoNul(v, 0);
    case Object(props) => ObjectHasNoNul(v, 0);
    case _ =>
  }

  lemma {:induction false} StringHasNoNul(s: Bytes, k: nat)
    requires k <= |s|
    ensures NoNul(StringRest(s, k))
    decreases |s| - k
  {
    if k < |s| { StringHasNoNul(s, k + 1); }
  }

  lemma {:induction false} ArrayHasNoNul(v: Value, k: nat)
    requires v.Array? && k <= |v.items|
    ensures NoNul(ArrayRest(v, k))
    decreases v, |v.items| - k
  {
    if k < |v.items| {
      TextHasNoNul(v.items[k]);
      ArrayHasNoNul(v, k + 1);
    }
  }

  lemma {:induction false} ObjectHasNoNul(v: Value, k: nat)
    requires v.Object? && k <= |v.props|
    ensures NoNul(ObjectRest(v, k))
    decreases v, |v.props| - k
  {
    if k < |v.props| {
      StringHasNoNul(v.props[k].key, 0);
      TextHasNoNul(v.props[k].value);
      ObjectHasNoNul(v, k + 1);
    }
  }

  // ---------------------------------------------------------------------
  // The two kinds of buffer

  /** A growing buffer, or `size` bytes of the caller's memory with `text` at its front and `rest` behind. */
  datatype Out = Growing(text: Bytes) | Bounded(size: nat, text: Bytes, rest: Bytes)

  /** What a bounded buffer still takes; one byte stays free for the NUL. */
  function Room(o: Out): nat
    requires o.Bounded?
  {
    if |o.text| + 1 < o.size then o.size - 1 - |o.text| else 0
  }

  predicate Fits(o: Out, t: Bytes) {
    o.Growing? || |t| <= Room(o)
  }

  ghost predicate Backed(o: Out) {
    o.Bounded? ==> o.size <= |o.text| + |o.rest|
  }

  /** Writing as much of `t` as there is room for. */
  function Put(o: Out, t: Bytes): Out
    requires Backed(o)
  {
    match o
    case Growing(text) => Growing(text + t)
    case Bounded(size, text, rest) =>
      var n := if |t| <= Room(o) then |t| else Room(o);
      Bounded(size, text + t[..n], rest[n..])
  }

  lemma PutTwice(o: Out, t: Bytes, u: Bytes)
    requires Backed(o) && Fits(o, t)
    ensures Backed(Put(o, t)) && Put(Put(o, t), u) == Put(o, t + u) && (Fits(Put(o, t), u) <==> Fits(o, t + u))
  {
    if o.Growing? {
      Regroup(o.text, t, u);
    } else {
      var n := if |u| <= Room(o) - |t| then |u| else Room(o) - |t|;
      assert t[..|t|] == t;
      var now := Bounded(o.size, o.text + t, o.rest[|t|..]);
      assert Put(o, t) == now && Room(now) == Room(o) - |t|;
      FrontOfBoth(o.text, t, u, n);
      DropBoth(o.rest, |t|, n);
    }
  }

  lemma DropBoth(s: Bytes, k: nat, n: nat)
    requires k + n <= |s|
    ensures s[k..][n..] == s[k + n..]
  {}

  lemma OneMoreByte(t: Bytes, i: nat)
    requires i < |t|
    ensures t[..i + 1] == t[..i] + [t[i]] && t == t[..i] + [t[i]] + t[i + 1..]
  {}

  lemma FrontOfBoth(a: Bytes, t: Bytes, u: Bytes, n: nat)
    requires n <= |u|
    ensures (a + t) + u[..n] == a + (t + u)[..|t| + n]
  {
    assert (t + u)[..|t| + n] == t + u[..n];
  }

  /** What does not fit hides all that comes after it. */
  lemma PutCut(o: Out, t: Bytes, u: Bytes)
    requires Backed(o) && !Fits(o, t)
    ensures Put(o, t + u) == Put(o, t) && !Fits(o, t + u)
  {
    assert (t + u)[..Room(o)] == t[..Room(o)];
  }

  /** After `done`, writing `next`: if it was cut off, the whole of `done + next + more` was. */
  lemma PutNext(o: Out, done: Bytes, next: Bytes, more: Bytes, all: Bytes)
    requires Backed(o) && Fits(o, done) && all == done + next + more
    ensures Backed(Put(o, done)) && Put(Put(o, done), next) == Put(o, done + next)
    ensures Fits(Put(o, done), next) <==> Fits(o, done + next)
    ensures !Fits(o, done + next) ==> Put(o, done + next) == Put(o, all) && !Fits(o, all)
  {
    PutTwice(o, done, next);
    if !Fits(o, done + next) { PutCut(o, done + next, more); }
  }

  // ---------------------------------------------------------------------
  // The serializer

  class Serializer {
    var wrbuf: array<Byte>
    var bufsz: nat
    var bufpos: nat
    var bufowned: bool

    ghost predicate Valid()
      reads this
    {
      bufpos <= bufsz <= wrbuf.Length
    }

    ghost function State(): (o: Out)
      requires Valid()
      reads this, wrbuf
      ensures Backed(o)
    {
      if bufowned then Growing(wrbuf[..bufpos]) else Bounded(bufsz, wrbuf[..bufpos], wrbuf[bufpos..])
    }

    constructor ()
      ensures Valid()
    {
      wrbuf := new Byte[0];
      bufsz, bufpos, bufowned := 0, 0, false;
    }

    /** appendChr: one byte, if need be after growing the buffer. */
    method AppendChr(c: Byte) returns (ok: bool)
      requires Valid()
      modifies this, wrbuf
      ensures Valid() && bufowned == old(bufowned) && (wrbuf == old(wrbuf) || (bufowned && fresh(wrbuf)))
      ensures State() == Put(old(State()), [c]) && ok == Fits(old(State()), [c])
    {
      if !bufowned && bufpos + 1 >= bufsz { return false; }
      if bufpos == bufsz { Grow(); }
      wrbuf[bufpos] := c;
      bufpos := bufpos + 1;
      assert wrbuf[..bufpos] == old(wrbuf[..bufpos]) + [c];
      return true;
    }

    /** The reallocation. */
    method Grow()
      requires Valid() && bufowned
      modifies this`wrbuf, this`bufsz
      ensures Valid() && fresh(wrbuf) && bufsz == old(bufsz) + 1024 && wrbuf[..bufpos] == old(wrbuf[..bufpos])
    {
      var bigger := new Byte[bufsz + 1024];
      forall i | 0 <= i < bufsz { bigger[i] := wrbuf[i]; }
      wrbuf := bigger;
      bufsz := bufsz + 1024;
    }

    /** Bytes appended one after the other until one fails. */
    method AppendAll(t: Bytes) returns (ok: bool)
      requires Valid()
      modifies this, wrbuf
      ensures Valid() && bufowned == old(bufowned) && (wrbuf == old(wrbuf) || (bufowned && fresh(wrbuf)))
      ensures State() == Put(old(State()), t) && ok == Fits(old(State()), t)
    {
      ghost var start := State();
      var i := 0;
      while i < |t|
        invariant 0 <= i <= |t|
        invariant Valid() && bufowned == old(bufowned) && (wrbuf == old(wrbuf) || (bufowned && fresh(wrbuf)))
        invariant State() == Put(start, t[..i]) && Fits(start, t[..i])
      {
        OneMoreByte(t, i);
        PutNext(start, t[..i], [t[i]], t[i + 1..], t);
        ok := AppendChr(t[i]);
        if !ok { return; }
        i := i + 1;
      }
      assert t[..i] == t;
      ok := true;
    }

    method SerializePlainString(s: Bytes) returns (ok: bool)
      requires Valid()
      modifies this, wrbuf
      ensures Valid() && bufowned == old(bufowned) && (wrbuf == old(wrbuf) || (bufowned && fresh(wrbuf)))
      ensures State() == Put(old(State()), StringText(s)) && ok == Fits(old(State()), StringText(s))
    {
      ghost var start, all, done := State(), StringText(s), [QUOTE];
      PutCutOrNot(start, [QUOTE], StringRest(s, 0));
      ok := AppendChr(QUOTE);
      if !ok { return; }
      var i := 0;
      while i < |s|
        invariant 0 <= i <= |s|
        invariant Valid() && bufowned == old(bufowned) && (wrbuf == old(wrbuf) || (bufowned && fresh(wrbuf)))
        invariant State() == Put(start, done) && Fits(start, done) && all == done + StringRest(s, i)
      {
        ghost var next := Escaped(s[i]);
        Regroup(done, next, StringRest(s, i + 1));
        PutNext(start, done, next, StringRest(s, i + 1), all);
        ok := AppendAll(Escaped(s[i]));
        if !ok { return; }
        done := done + next;
        i := i + 1;
      }
      PutTwice(start, done, [QUOTE]);
      ok := AppendChr(QUOTE);
    }

    method SerializeArray(v: Value) returns (ok: bool)
      requires Valid() && v.Array? && Serializable(v)
      modifies this, wrbuf
      ensures Valid() && bufowned == old(bufowned) && (wrbuf == old(wrbuf) || (bufowned && fresh(wrbuf)))
      ensures State() == Put(old(State()), Text(v)) && ok == Fits(old(State()), Text(v))
      decreases v, 1
    {
      ghost var start, all, done := State(), Text(v), [OPEN_ARRAY];
      PutCutOrNot(start, [OPEN_ARRAY], ArrayRest(v, 0));
      ok := AppendChr(OPEN_ARRAY);
      if !ok { return; }
      var i := 0;
      while i < |v.items|
        invariant 0 <= i <= |v.items|
        invariant Valid() && bufowned == old(bufowned) && (wrbuf == old(wrbuf) || (bufowned && fresh(wrbuf)))
        invariant State() == Put(start, done) && Fits(start, done) && all == done + ArrayRest(v, i)
      {
        ghost var next, more := Separator(i) + Text(v.items[i]), ArrayRest(v, i + 1);
        Regroup(done, next, more);
        PutNext(start, done, next, more, all);
        ok := SerializeItem(i, v.items[i]);
        if !ok { return; }
        done := done + next;
        i := i + 1;
      }
      PutTwice(start, done, [CLOSE_ARRAY]);
      ok := AppendChr(CLOSE_ARRAY);
    }

    method SerializeObject(v: Value) returns (ok: bool)
      requires Valid() && v.Object? && Serializable(v)
      modifies this, wrbuf
      ensures Valid() && bufowned == old(bufowned) && (wrbuf == old(wrbuf) || (bufowned && fresh(wrbuf)))
      ensures State() == Put(old(State()), Text(v)) && ok == Fits(old(State()), Text(v))
      decreases v, 1
    {
      ghost var start, all, done := State(), Text(v), [OPEN_OBJECT];
      PutCutOrNot(start, [OPEN_OBJECT], ObjectRest(v, 0));
      ok := AppendChr(OPEN_OBJECT);
      if !ok { return; }
      var i := 0;
      while i < |v.props|
        invariant 0 <= i <= |v.props|
        invariant Valid() && bufowned == old(bufowned) && (wrbuf == old(wrbuf) || (bufowned && fresh(wrbuf)))
        invariant State() == Put(start, done) && Fits(start, done) && all == done + ObjectRest(v, i)
      {
        ghost var next := MemberText(i, v.props[i]);
        PutMember(start, done, v, i, all);
        ok := SerializeProperty(i, v.props[i]);
        if !ok { return; }
        done := done + next;
        i := i + 1;
      }
      PutTwice(start, done, [CLOSE_OBJECT]);
      ok := AppendChr(CLOSE_OBJECT);
    }

    /** The i-th item and what comes before it. */
    method SerializeItem(i: nat, item: Value) returns (ok: bool)
      requires Valid() && Serializable(item)
      modifies this, wrbuf
      ensures Valid() && bufowned == old(bufowned) && (wrbuf == old(wrbuf) || (bufowned && fresh(wrbuf)))
      ensures var t := Separator(i) + Text(item); State() == Put(old(State()), t) && ok == Fits(old(State()), t)
      decreases item, 3
    {
      ghost var start := State();
      PutCutOrNot(start, Separator(i), Text(item));
      ok := AppendAll(Separator(i));
      if !ok { return; }
      PutTwice(start, Separator(i), Text(item));
      ok := SerializeValue(item);
    }

    method SerializeProperty(i: nat, p: Property) returns (ok: bool)
      requires Valid() && Serializable(p.value)
      modifies this, wrbuf
      ensures Valid() && bufowned == old(bufowned) && (wrbuf == old(wrbuf) || (bufowned && fresh(wrbuf)))
      ensures State() == Put(old(State()), MemberText(i, p)) && ok == Fits(old(State()), MemberText(i, p))
      decreases p.value, 3
    {
      ghost var start := State();
      PutCutOrNot(start, KeyText(i, p.key), Text(p.value));
      ok := SerializeKey(i, p.key);
      if !ok { return; }
      PutTwice(start, KeyText(i, p.key), Text(p.value));
      ok := SerializeValue(p.value);
    }

    /** What comes before the i-th property value. */
    method SerializeKey(i: nat, key: Bytes) returns (ok: bool)
      requires Valid()
      modifies this, wrbuf
      ensures Valid() && bufowned == old(bufowned) && (wrbuf == old(wrbuf) || (bufowned && fresh(wrbuf)))
      ensures State() == Put(old(State()), KeyText(i, key)) && ok == Fits(old(State()), KeyText(i, key))
    {
      ghost var start := State();
      ghost var sep, name := Separator(i), StringText(key);
      ghost var all := sep + name + [COLON];
      assert all == [] + sep + (name + [COLON]);
      PutCutOrNot(start, sep, name + [COLON]);
      ok := AppendAll(Separator(i));
      if !ok { return; }
      PutNext(start, sep, name, [COLON], all);
      ok := SerializePlainString(key);
      if !ok { return; }
      PutTwice(start, sep + name, [COLON]);
      ok := AppendChr(COLON);
    }

    /** serialize. */
    method SerializeValue(v: Value) returns (ok: bool)
      requires Valid() && Serializable(v)
      modifies this, wrbuf
      ensures Valid() && bufowned == old(bufowned) && (wrbuf == old(wrbuf) || (bufowned && fresh(wrbuf)))
      ensures State() == Put(old(State()), Text(v)) && ok == Fits(old(State()), Text(v))
      decreases v, 2
    {
      match v
      case Null => ok := AppendAll(LIT_NULL);
      case Bool(b) => ok := AppendAll(if b then LIT_TRUE else LIT_FALSE);
      case Integer(n) => ok := AppendAll(IntegerText(n));
      case String(s) => ok := SerializePlainString(s);
      case Array(items) => ok := SerializeArray(v);
      case Object(props) => ok := SerializeObject(v);
    }

    /**
     PSC_JsonSerializer_serializeTo: the front of the text that fits, a NUL, and
     nothing else; the result tells the size needed, or one more than there is.
     */
    method SerializeTo(buf: array<Byte>, size: nat, v: Value) returns (n: nat)
      requires size <= buf.Length && Serializable(v)
      modifies this, buf
      ensures var t := Text(v);
              && n == (if |t| < size then |t| + 1 else size + 1)
              && (size == 0 ==> buf[..] == old(buf[..]))
              && (size > 0 ==>
                  var k := if |t| < size then |t| else size - 1;
                  buf[..] == t[..k] + [0] + old(buf[..])[k + 1..])
    {
      hide Text, Put, Fits, Room, NoNul;
      TextHasNoNul(v);
      wrbuf := buf;
      bufsz, bufpos, bufowned := size, 0, false;
      ghost var mem, t := buf[..], Text(v);
      assert State() == Bounded(size, [], mem);
      var ok := SerializeValue(v);
      PutFront(size, mem, t);
      ghost var k := if |t| < size then |t| else if size > 0 then size - 1 else 0;
      assert State() == Bounded(size, t[..k], mem[k..]);
      Terminate();
      n := bufpos + if ok then 0 else 1;
      assert size > 0 ==> mem[k..][1..] == mem[k + 1..];
    }

    method Terminate()
      requires Valid()
      modifies this`bufpos, wrbuf
      ensures old(bufpos) < bufsz ==>
                bufpos == old(bufpos) + 1 && wrbuf[..] == old(wrbuf[..bufpos]) + [0] + old(wrbuf[bufpos..])[1..]
      ensures old(bufpos) == bufsz ==>
                bufpos == old(bufpos) && wrbuf[..] == old(wrbuf[..bufpos]) + old(wrbuf[bufpos..])
    {
      assert wrbuf[..] == wrbuf[..bufpos] + wrbuf[bufpos..];
      if bufpos < bufsz {
        wrbuf[bufpos] := 0;
        bufpos := bufpos + 1;
      }
    }

    /** PSC_JsonSerializer_serialize: the whole text as a C string. */
    method Serialize(v: Value) returns (text: array<Byte>)
      requires Serializable(v)
      modifies this
      ensures fresh(text) && |Text(v)| < text.Length
      ensures text[..|Text(v)| + 1] == Text(v) + [0]
    {
      wrbuf := new Byte[0];
      bufsz, bufpos, bufowned := 0, 0, true;
      assert State() == Growing([]);
      var _ := SerializeValue(v);
      assert State() == Growing([] + Text(v));
      var _ := AppendChr(0);
      text := wrbuf;
    }
  }

  lemma PutMember(o: Out, done: Bytes, v: Value, i: nat, all: Bytes)
    requires Backed(o) && Fits(o, done) && v.Object? && i < |v.props| && all == done + ObjectRest(v, i)
    ensures var next := MemberText(i, v.props[i]);
            && all == (done + next) + ObjectRest(v, i + 1)
            && Backed(Put(o, done)) && Put(Put(o, done), next) == Put(o, done + next)
            && (Fits(Put(o, done), next) <==> Fits(o, done + next))
            && (!Fits(o, done + next) ==> Put(o, done + next) == Put(o, all) && !Fits(o, all))
  {
    var next, more := MemberText(i, v.props[i]), ObjectRest(v, i + 1);
    Regroup(done, next, more);
    PutNext(o, done, next, more, all);
  }

  lemma PutFront(size: nat, mem: Bytes, t: Bytes)
    requires size <= |mem| && t != []
    ensures var o, k := Bounded(size, [], mem), if |t| < size then |t| else if size > 0 then size - 1 else 0;
            Put(o, t) == Bounded(size, t[..k], mem[k..]) && (Fits(o, t) <==> |t| < size)
  {
    var k := if |t| < size then |t| else if size > 0 then size - 1 else 0;
    assert [] + t[..k] == t[..k];
  }

  lemma PutCutOrNot(o: Out, t: Bytes, u: Bytes)
    requires Backed(o)
    ensures !Fits(o, t) ==> Put(o, t + u) == Put(o, t) && !Fits(o, t + u)
  {
    if !Fits(o, t) { PutCut(o, t, u); }
  }
}
