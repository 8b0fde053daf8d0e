/**
 The recursive-descent JSON parser (json.c): its meaning as functions on the text,
 the parser itself, and the proof that it undoes the serializer.
 */
module JsonParser {
  import opened Common
  import opened Texts
  import opened Json

  /**
   At the end of the text `parse` reports success without a value, `Empty`. `twice`
   says that a container has taken the value of its last member for a missing one.
   */
  datatype Parsed<T> = Failed(twice: bool) | Empty | Parsed(value: T, end: nat)

  predicate IsWs(b: Byte) {
    b == 0x20 || b == 0x09 || b == 0x0d || b == 0x0a
  }

  function SkipWs(s: Bytes, i: nat): (r: nat)
    requires i <= |s|
    ensures i <= r <= |s|
    decreases |s| - i
  {
    if i < |s| && IsWs(s[i]) then SkipWs(s, i + 1) else i
  }

  // ---------------------------------------------------------------------
  // Strings

  /** The value of k hexadecimal digits. */
  function HexValue(s: Bytes, i: nat, k: nat): (r: Option<nat>)
    ensures r.Some? ==> r.value < Power(16, k) && (k > 0 ==> i + k <= |s|)
  {
    if k == 0 then Some(0)
    else if HexValue(s, i, k - 1).Some? && Nibble(Ch(s, i + k - 1)).Some?
    then Some(16 * HexValue(s, i, k - 1).value + Nibble(Ch(s, i + k - 1)).value)
    else None
  }

  predicate HighSurrogate(u: nat) {
    0xd800 <= u < 0xdc00
  }

  predicate LowSurrogate(u: nat) {
    0xdc00 <= u < 0xe000
  }

  /** The UTF-8 bytes the parser writes for a code. */
  function Utf8(c: nat): Bytes
    requires c < 0x11_0000
  {
    if c < 0x80 then [c]
    else if c < 0x800 then [0xc0 + c / 64, 0x80 + c % 64]
    else if c < 0x1_0000 then [0xe0 + c / 4096, 0x80 + c / 64 % 64, 0x80 + c % 64]
    else [0xf0 + c / 262144, 0x80 + c / 4096 % 64, 0x80 + c / 64 % 64, 0x80 + c % 64]
  }

  /** An escape whose letter `u` is at `i`; a high surrogate followed by another escape must be a pair. */
  function UnicodeAt(s: Bytes, i: nat): (r: Parsed<Bytes>)
    ensures !r.Empty? && (r.Failed? ==> !r.twice) && (r.Parsed? ==> i < r.end <= |s|)
  {
    var u := HexValue(s, i + 1, 4);
    if u.None? then Failed(false)
    else
      Pow16Four();
      if Ch(s, i + 5) == BACKSLASH && Ch(s, i + 6) == LOWER_U && HighSurrogate(u.value) then
        var l := HexValue(s, i + 7, 4);
        if l.None? || !LowSurrogate(l.value) then Failed(false)
        else Parsed(Utf8(0x1_0000 + (u.value - 0xd800) * 0x400 + (l.value - 0xdc00)), i + 11)
      else
        Parsed(Utf8(u.value), i + 5)
  }

  lemma Pow16Four()
    ensures Power(16, 4) == 0x1_0000
  {
    assert Power(16, 2) == 256;
    assert Power(16, 3) == 4096;
  }

  /** What an escape stands for, from the byte after its backslash. */
  function EscapeAt(s: Bytes, i: nat): (r: Parsed<Bytes>)
    ensures !r.Empty? && (r.Failed? ==> !r.twice) && (r.Parsed? ==> i < r.end <= |s|)
  {
    var c := Ch(s, i);
    if c == QUOTE || c == BACKSLASH || c == SLASH then Parsed([c], i + 1)
    else if c == 0x62 then Parsed([0x08], i + 1)
    else if c == 0x66 then Parsed([0x0c], i + 1)
    else if c == 0x6e then Parsed([0x0a], i + 1)
    else if c == 0x72 then Parsed([0x0d], i + 1)
    else if c == 0x74 then Parsed([0x09], i + 1)
    else if c == LOWER_U then UnicodeAt(s, i)
    else Failed(false)
  }

  /** The rest of a string from `i`, after the bytes `acc`. */
  function StringFrom(s: Bytes, i: nat, acc: Bytes): (r: Parsed<Bytes>)
    ensures !r.Empty? && (r.Failed? ==> !r.twice) && (r.Parsed? ==> i < r.end <= |s|)
    decreases |s| - i
  {
    if i >= |s| then Failed(false)
    else if s[i] == QUOTE then Parsed(acc, i + 1)
    else if s[i] == BACKSLASH then
      match EscapeAt(s, i + 1)
      case Failed(twice) => Failed(twice)
      case Empty => Failed(false)
      case Parsed(bytes, j) => StringFrom(s, j, acc + bytes)
    else StringFrom(s, i + 1, acc + [s[i]])
  }

  // ---------------------------------------------------------------------
  // Numbers

  function Clamp(n: int): int {
    if n < MIN_INT64 then MIN_INT64 else if n > MAX_INT64 then MAX_INT64 else n
  }

  /** strtoll on a text that starts with a sign or a digit; no digits, no progress. */
  function Strtoll(s: Bytes, i: nat): (r: (int, nat))
    requires i < |s|
    ensures i <= r.1 <= |s|
  {
    var j := if s[i] == PLUS || s[i] == MINUS then i + 1 else i;
    var e := DigitsEnd(s, j, 10);
    if e == j then (0, i)
    else (Clamp(if s[i] == MINUS then -(NatOf(s[j..e], 10) as int) else NatOf(s[j..e], 10)), e)
  }

  predicate FloatMark(b: Byte) {
    b == 0x2e || b == 0x65 || b == 0x45
  }

  /** Where strtod ends, if the digits before the fraction or exponent end at `e`. */
  function FloatEnd(s: Bytes, e: nat): (r: nat)
    requires e <= |s|
    ensures e <= r <= |s|
  {
    var f := if Ch(s, e) == 0x2e then DigitsEnd(s, e + 1, 10) else e;
    var x := if Ch(s, f) == 0x65 || Ch(s, f) == 0x45 then f + 1 else f;
    var d := if x > f && (Ch(s, x) == PLUS || Ch(s, x) == MINUS) then x + 1 else x;
    if x > f && DigitsEnd(s, d, 10) > d then DigitsEnd(s, d, 10) else f
  }

  lemma {:induction false} AllDigits(s: Bytes, i: nat)
    requires i <= |s|
    ensures forall k :: i <= k < DigitsEnd(s, i, 10) ==> IsDigit(s[k], 10)
    decreases |s| - i
  {
    if i < |s| && IsDigit(s[i], 10) { AllDigits(s, i + 1); }
  }

  lemma FloatIsNumeral(s: Bytes, i: nat)
    requires i < |s| && Strtoll(s, i).1 > i
    ensures var t := s[i..FloatEnd(s, Strtoll(s, i).1)]; t != [] && forall k :: 0 <= k < |t| ==> NumeralByte(t[k])
  {
    hide FloatEnd;
    var e := Strtoll(s, i).1;
    AllDigits(s, if s[i] == PLUS || s[i] == MINUS then i + 1 else i);
    FloatTail(s, e);
    forall k | i <= k < FloatEnd(s, e) ensures NumeralByte(s[k]) {}
  }

  lemma FloatTail(s: Bytes, e: nat)
    requires e <= |s|
    ensures forall k :: e <= k < FloatEnd(s, e) ==> NumeralByte(s[k])
  {
    hide DigitsEnd, IsDigit;
    var f := if Ch(s, e) == 0x2e then DigitsEnd(s, e + 1, 10) else e;
    if Ch(s, e) == 0x2e { AllDigits(s, e + 1); }
    if f + 1 <= |s| { AllDigits(s, f + 1); }
    if f + 2 <= |s| { AllDigits(s, f + 2); }
  }

  function NumberAt(s: Bytes, i: nat): (r: Parsed<Value>)
    requires i < |s|
    ensures !r.Empty? && (r.Failed? ==> !r.twice) && (r.Parsed? ==> i < r.end <= |s|)
  {
    var (n, e) := Strtoll(s, i);
    if e == i then Failed(false)
    else if FloatMark(Ch(s, e)) then
      FloatIsNumeral(s, i);
      Parsed(Float(s[i..FloatEnd(s, e)]), FloatEnd(s, e))
    else Parsed(Integer(n), e)
  }

  // ---------------------------------------------------------------------
  // Values

  function LiteralAt(s: Bytes, i: nat): (r: Parsed<Value>)
    ensures !r.Empty? && (r.Failed? ==> !r.twice) && (r.Parsed? ==> i < r.end <= |s|)
  {
    if Follows(s, i, LIT_NULL) then Parsed(Null, i + 4)
    else if Follows(s, i, LIT_FALSE) then Parsed(Bool(false), i + 5)
    else if Follows(s, i, LIT_TRUE) then Parsed(Bool(true), i + 4)
    else Failed(false)
  }

  /** What comes behind a member of a container: its end, or a comma and more. */
  function After(s: Bytes, i: nat, close: Byte): (r: Parsed<bool>)
    requires i <= |s| && close != 0
    ensures !r.Empty? && (r.Failed? ==> !r.twice) && (r.Parsed? ==> i < r.end <= |s|)
  {
    var e := SkipWs(s, i);
    if Ch(s, e) == close then Parsed(false, e + 1) else if Ch(s, e) == COMMA then Parsed(true, e + 1) else Failed(false)
  }

  /** parse. */
  function ValueAt(s: Bytes, i: nat): (r: Parsed<Value>)
    requires i <= |s|
    ensures r.Parsed? ==> i < r.end <= |s|
    decreases |s| - i, 0
  {
    var j := SkipWs(s, i);
    if j == |s| then Empty
    else if s[j] == OPEN_OBJECT then PropertiesFrom(s, j + 1, [])
    else if s[j] == OPEN_ARRAY then ItemsFrom(s, j + 1, [])
    else if s[j] == QUOTE then
      match StringFrom(s, j + 1, [])
      case Failed(twice) => Failed(twice)
      case Empty => Failed(false)
      case Parsed(bytes, e) => Parsed(String(bytes), e)
    else if s[j] == PLUS || s[j] == MINUS || IsDigit(s[j], 10) then NumberAt(s, j)
    else LiteralAt(s, j)
  }

  /** The rest of an array from `i`, after `items`; a comma may come before the end. */
  function ItemsFrom(s: Bytes, i: nat, items: seq<Value>): (r: Parsed<Value>)
    requires i <= |s|
    ensures !r.Empty? && (r.Parsed? ==> i < r.end <= |s|)
    decreases |s| - i, 1
  {
    var j := SkipWs(s, i);
    if Ch(s, j) == CLOSE_ARRAY then Parsed(Array(items), j + 1)
    else
      match ValueAt(s, j)
      case Failed(twice) => Failed(twice)
      case Empty => Failed(items != [])
      case Parsed(v, k) =>
        match After(s, k, CLOSE_ARRAY)
        case Failed(twice) => Failed(twice)
        case Empty => Failed(false)
        case Parsed(more, e) => if more then ItemsFrom(s, e, items + [v]) else Parsed(Array(items + [v]), e)
  }

  /** A property; the byte in front of its key is skipped unread. */
  function PropertyAt(s: Bytes, i: nat): (r: Parsed<Property>)
    requires i <= |s|
    ensures r.Parsed? ==> i < r.end <= |s|
    decreases |s| - i, 1
  {
    match StringFrom(s, i + 1, [])
    case Failed(twice) => Failed(twice)
    case Empty => Failed(false)
    case Parsed(key, k) =>
      var c := SkipWs(s, k);
      if Ch(s, c) != COLON then Failed(false)
      else
        match ValueAt(s, SkipWs(s, c + 1))
        case Failed(twice) => Failed(twice)
        case Empty => Empty
        case Parsed(v, e) => Parsed(Property(key, v), e)
  }

  function PropertiesFrom(s: Bytes, i: nat, props: seq<Property>): (r: Parsed<Value>)
    requires i <= |s|
    ensures !r.Empty? && (r.Parsed? ==> i < r.end <= |s|)
    decreases |s| - i, 2
  {
    var j := SkipWs(s, i);
    if Ch(s, j) == CLOSE_OBJECT then Parsed(Object(props), j + 1)
    else
      match PropertyAt(s, j)
      case Failed(twice) => Failed(twice)
      case Empty => Failed(props != [])
      case Parsed(p, k) =>
        var props' := SetProperty(props, p.key, p.value);
        match After(s, k, CLOSE_OBJECT)
        case Failed(twice) => Failed(twice)
        case Empty => Failed(false)
        case Parsed(more, e) => if more then PropertiesFrom(s, e, props') else Parsed(Object(props'), e)
  }

  /** A whole document: one value, and nothing else but white space. */
  function Document(s: Bytes): Option<Value> {
    var r := ValueAt(s, 0);
    if r.Parsed? && SkipWs(s, r.end) == |s| then Some(r.value) else None
  }

  // ---------------------------------------------------------------------
  // The parser

  /** strlen. */
  function Strlen(mem: Bytes): (n: nat)
    requires 0 in mem
    ensures n < |mem| && mem[n] == 0 && NoNul(mem[..n])
  {
    if mem[0] == 0 then 0 else 1 + Strlen(mem[1..])
  }

  /** The serializer's fields as the parser uses them. */
  class Deserializer {
    const rdbuf: array<Byte>
    const bufsz: nat
    var bufpos: nat

    // Values are numbered as they are built; `destroyed` counts how often each was
    // destroyed.
    ghost var created: nat
    ghost var destroyed: multiset<nat>

    /** `bufsz` is where the terminating NUL is. */
    ghost predicate Valid()
      reads this, rdbuf
    {
      bufpos <= bufsz < rdbuf.Length && rdbuf[bufsz] == 0
    }

    ghost function Input(): (s: Bytes)
      requires bufsz <= rdbuf.Length
      reads rdbuf
    {
      rdbuf[..bufsz]
    }

    constructor (json: array<Byte>)
      requires 0 in json[..]
      ensures Valid() && rdbuf == json && bufpos == 0 && bufsz == Strlen(json[..])
      ensures created == 0 && destroyed == multiset{}
    {
      rdbuf := json;
      bufsz := Strlen(json[..]);
      bufpos := 0;
      created, destroyed := 0, multiset{};
    }

    method SkipBlanks()
      requires Valid()
      modifies this`bufpos
      ensures Valid() && bufpos == SkipWs(Input(), old(bufpos))
    {
      while bufpos < bufsz && IsWs(rdbuf[bufpos])
        invariant Valid() && SkipWs(Input(), bufpos) == SkipWs(Input(), old(bufpos))
      {
        bufpos := bufpos + 1;
      }
    }

    /** Four hexadecimal digits. */
    method FourDigits(p: nat) returns (u: Option<nat>)
      requires Valid() && p <= bufsz
      ensures u == HexValue(Input(), p, 4)
    {
      var k, v := 0, 0;
      while k < 4
        invariant 0 <= k <= 4 && p + k <= bufsz && HexValue(Input(), p, k) == Some(v)
      {
        assert rdbuf[p + k] == Ch(Input(), p + k);
        var n := Nibble(rdbuf[p + k]);
        if n.None? {
          NoMoreDigits(Input(), p, k + 1, 4);
          return None;
        }
        v := 16 * v + n.value;
        k := k + 1;
      }
      u := Some(v);
    }

    method ParseUnicode(p: nat) returns (r: Parsed<Bytes>)
      requires Valid() && p < bufsz
      ensures r == UnicodeAt(Input(), p)
    {
      Pow16Four();
      var u := FourDigits(p + 1);
      if u.None? { return Failed(false); }
      assert rdbuf[p + 5] == Ch(Input(), p + 5);
      if rdbuf[p + 5] == BACKSLASH && rdbuf[p + 6] == LOWER_U && HighSurrogate(u.value) {
        var l := FourDigits(p + 7);
        if l.None? || !LowSurrogate(l.value) { return Failed(false); }
        return Parsed(Utf8(0x1_0000 + (u.value - 0xd800) * 0x400 + (l.value - 0xdc00)), p + 11);
      }
      r := Parsed(Utf8(u.value), p + 5);
    }

    method ParseEscape(p: nat) returns (r: Parsed<Bytes>)
      requires Valid() && p <= bufsz
      ensures r == EscapeAt(Input(), p)
    {
      var c := rdbuf[p];
      assert c == Ch(Input(), p);
      if c == QUOTE || c == BACKSLASH || c == SLASH { return Parsed([c], p + 1); }
      if c == 0x62 { return Parsed([0x08], p + 1); }
      if c == 0x66 { return Parsed([0x0c], p + 1); }
      if c == 0x6e { return Parsed([0x0a], p + 1); }
      if c == 0x72 { return Parsed([0x0d], p + 1); }
      if c == 0x74 { return Parsed([0x09], p + 1); }
      if c == LOWER_U { r := ParseUnicode(p); } else { r := Failed(false); }
    }

    /** The position moves only if the string is complete. */
    method ParsePlainString() returns (str: Option<Bytes>)
      requires Valid()
      modifies this`bufpos
      ensures Valid()
      ensures str.None? ==> StringFrom(Input(), old(bufpos) + 1, []).Failed? && bufpos == old(bufpos)
      ensures str.Some? ==> StringFrom(Input(), old(bufpos) + 1, []) == Parsed(str.value, bufpos)
    {
      ghost var whole := StringFrom(Input(), bufpos + 1, []);
      var pos: nat, parsed: Bytes, ok := bufpos + 1, [], false;
      while !ok && pos < bufsz
        invariant Valid() && bufpos == old(bufpos) && pos <= bufsz + 1 && (ok ==> pos <= bufsz)
        invariant whole == if ok then Parsed(parsed, pos) else StringFrom(Input(), pos, parsed)
        decreases !ok, bufsz - pos
      {
        assert rdbuf[pos] == Input()[pos];
        if rdbuf[pos] == QUOTE {
          pos, ok := pos + 1, true;
        } else if rdbuf[pos] == BACKSLASH {
          var e := ParseEscape(pos + 1);
          if e.Failed? { return None; }
          pos, parsed := e.end, parsed + e.value;
        } else {
          pos, parsed := pos + 1, parsed + [rdbuf[pos]];
        }
      }
      if !ok { return None; }
      bufpos := pos;
      str := Some(parsed);
    }

    method ParseNumber() returns (v: Option<Value>)
      requires Valid() && bufpos < bufsz
      modifies this`bufpos
      ensures Valid() && v == ValueOf(NumberAt(Input(), old(bufpos)))
      ensures v.Some? ==> bufpos == NumberAt(Input(), old(bufpos)).end
    {
      var (n, e) := Strtoll(rdbuf[..bufsz], bufpos);
      assert rdbuf[e] == Ch(Input(), e);
      if e == bufpos { return None; }
      if FloatMark(rdbuf[e]) {
        FloatIsNumeral(rdbuf[..bufsz], bufpos);
        var f := FloatEnd(rdbuf[..bufsz], e);
        v := Some(Float(rdbuf[..bufsz][bufpos..f]));
        bufpos := f;
      } else {
        bufpos := e;
        v := Some(Integer(n));
      }
    }

    method ParseLiteral() returns (v: Option<Value>)
      requires Valid()
      modifies this`bufpos
      ensures Valid() && v == ValueOf(LiteralAt(Input(), old(bufpos)))
      ensures v.Some? ==> bufpos == LiteralAt(Input(), old(bufpos)).end
    {
      var left := bufsz - bufpos;
      ghost var s := Input();
      assert left >= 4 ==> s[bufpos..bufpos + 4] == rdbuf[bufpos..bufpos + 4];
      assert left >= 5 ==> s[bufpos..bufpos + 5] == rdbuf[bufpos..bufpos + 5];
      if left >= 4 && rdbuf[bufpos..bufpos + 4] == LIT_NULL {
        bufpos := bufpos + 4;
        v := Some(Null);
      } else if left >= 5 && rdbuf[bufpos..bufpos + 5] == LIT_FALSE {
        bufpos := bufpos + 5;
        v := Some(Bool(false));
      } else if left >= 4 && rdbuf[bufpos..bufpos + 4] == LIT_TRUE {
        bufpos := bufpos + 4;
        v := Some(Bool(true));
      } else {
        v := None;
      }
    }

    /** A closing bracket, or a comma. */
    method Behind(close: Byte) returns (more: Option<bool>)
      requires Valid() && close != 0
      modifies this`bufpos
      ensures Valid() && more == ValueOf(After(Input(), old(bufpos), close))
      ensures more.Some? ==> bufpos == After(Input(), old(bufpos), close).end
    {
      SkipBlanks();
      assert rdbuf[bufpos] == Ch(Input(), bufpos);
      if rdbuf[bufpos] == close {
        more := Some(false);
      } else if rdbuf[bufpos] == COMMA {
        more := Some(true);
      } else {
        return None;
      }
      bufpos := bufpos + 1;
    }

    /** An array, which owns its items; without success all of it is destroyed. */
    method ParseArray() returns (v: Option<Value>, ghost own: multiset<nat>)
      requires Valid() && bufpos < bufsz
      modifies this`bufpos, this`created, this`destroyed
      ensures Valid() && v == ValueOf(ItemsFrom(Input(), old(bufpos) + 1, []))
      ensures v.Some? ==> bufpos == ItemsFrom(Input(), old(bufpos) + 1, []).end
      ensures Accounts(ItemsFrom(Input(), old(bufpos) + 1, []), old(created), created, old(destroyed), destroyed, own)
      decreases bufsz - bufpos, 1
    {
      hide ValueAt, ItemsFrom, PropertyAt, PropertiesFrom, StringFrom, LiteralAt, NumberAt, After, Accounts, Held;
      ghost var whole := ItemsFrom(Input(), bufpos + 1, []);
      ghost var n0, d0 := created, destroyed;
      ghost var last: multiset<nat> := multiset{};
      var items: seq<Value>, item: Option<Value> := [], None;
      own := Build();
      bufpos := bufpos + 1;
      while true
        invariant Valid() && bufpos > old(bufpos)
        invariant whole == ItemsFrom(Input(), bufpos, items)
        invariant Held(n0, created, d0, destroyed, own, last)
        invariant items != [] <==> item.Some?
        invariant item.Some? ==> last != multiset{}
        decreases bufsz - bufpos
      {
        ItemsIs(Input(), bufpos, items);
        SkipBlanks();
        assert rdbuf[bufpos] == Ch(Input(), bufpos);
        if rdbuf[bufpos] == CLOSE_ARRAY {
          bufpos := bufpos + 1;
          Done(n0, created, d0, destroyed, own, last, whole);
          return Some(Array(items)), own;
        }
        ghost var r, n1, d1 := ValueAt(Input(), bufpos), created, destroyed;
        var ok, next, o := ParseValue();
        SameOutcome(r, n1, created, d1, destroyed, o);
        if !ok {
          FailInside(r, n0, n1, created, d0, d1, destroyed, own, last);
          own := Destroy(own);
          return None, own;
        }
        if next.Some? {
          NextHeld(r, n0, n1, created, d0, d1, destroyed, own, last, o);
          item, last, own := next, o, own + o;
          items := items + [next.value];
        } else if item.Some? {
          FailTwice(n0, n1, d0, d1, own, last);
          items, own := items + [item.value], own + last;
        } else {
          FailHere(n0, n1, d0, d1, own, last);
        }
        AfterEnd(Input(), CLOSE_ARRAY);
        var more := Behind(CLOSE_ARRAY);
        if more.None? {
          if next.Some? { FailHere(n0, created, d0, destroyed, own, last); }
          own := Destroy(own);
          return None, own;
        }
        if !more.value {
          Done(n0, created, d0, destroyed, own, last, whole);
          return Some(Array(items)), own;
        }
      }
    }

    /** A value of its own comes into being. */
    ghost method Build() returns (own: multiset<nat>)
      modifies this`created
      ensures created == old(created) + 1
      ensures Held(old(created), created, destroyed, destroyed, own, multiset{}) && own != multiset{}
    {
      own, created := multiset{created}, created + 1;
      assert Range(created - 1, created) == own;
    }

    /** All that is owned is destroyed. */
    ghost method Destroy(own: multiset<nat>) returns (none: multiset<nat>)
      modifies this`destroyed
      ensures destroyed == old(destroyed) + own && none == multiset{}
    {
      destroyed, none := destroyed + own, multiset{};
    }

    /** A key, its colon and its value. */
    method ParseProperty() returns (ok: bool, key: Bytes, v: Option<Value>, ghost own: multiset<nat>)
      requires Valid()
      modifies this`bufpos, this`created, this`destroyed
      ensures Valid()
      ensures var r := PropertyAt(Input(), old(bufpos));
              && ok == !r.Failed? && (r.Parsed? <==> ok && v.Some?) && (ok && v.None? ==> bufpos == bufsz)
              && (r.Parsed? ==> Property(key, v.value) == r.value && bufpos == r.end)
              && Accounts(r, old(created), created, old(destroyed), destroyed, own)
      decreases bufsz - bufpos, 4
    {
      hide ValueAt, ItemsFrom, PropertyAt, PropertiesFrom, StringFrom, LiteralAt, NumberAt;
      PropertyIs(Input(), bufpos);
      key, v, own := [], None, multiset{};
      NoneBuilt(created, destroyed);
      var str := ParsePlainString();
      if str.None? { return false, [], None, own; }
      key := str.value;
      SkipBlanks();
      assert rdbuf[bufpos] == Ch(Input(), bufpos);
      if rdbuf[bufpos] != COLON { return false, key, None, own; }
      bufpos := bufpos + 1;
      SkipBlanks();
      ok, v, own := ParseValue();
    }

    /** An object, which owns the values of its properties; one replaced is destroyed. */
    method ParseObject() returns (v: Option<Value>, ghost own: multiset<nat>)
      requires Valid() && bufpos < bufsz
      modifies this`bufpos, this`created, this`destroyed
      ensures Valid() && v == ValueOf(PropertiesFrom(Input(), old(bufpos) + 1, []))
      ensures v.Some? ==> bufpos == PropertiesFrom(Input(), old(bufpos) + 1, []).end
      ensures var r := PropertiesFrom(Input(), old(bufpos) + 1, []);
              Accounts(r, old(created), created, old(destroyed), destroyed, own)
      decreases bufsz - bufpos, 1
    {
      hide ValueAt, ItemsFrom, PropertyAt, PropertiesFrom, StringFrom, LiteralAt, NumberAt, After, Accounts, Held,
        SetProperty, SetOwn, Replaced, Sum;
      ghost var whole := PropertiesFrom(Input(), bufpos + 1, []);
      ghost var n0, d0 := created, destroyed;
      ghost var last: multiset<nat>, owns: seq<multiset<nat>> := multiset{}, [];
      var props: seq<Property>, value: Option<Value> := [], None;
      ghost var self := Build();
      own := self;
      SumNone();
      bufpos := bufpos + 1;
      while true
        invariant Valid() && bufpos > old(bufpos)
        invariant whole == PropertiesFrom(Input(), bufpos, props)
        invariant |owns| == |props| && own == self + Sum(owns) && Held(n0, created, d0, destroyed, own, last)
        invariant props != [] <==> value.Some?
        invariant value.Some? ==> last != multiset{}
        decreases bufsz - bufpos
      {
        PropertiesIs(Input(), bufpos, props);
        SkipBlanks();
        assert rdbuf[bufpos] == Ch(Input(), bufpos);
        if rdbuf[bufpos] == CLOSE_OBJECT {
          bufpos := bufpos + 1;
          Done(n0, created, d0, destroyed, own, last, whole);
          return Some(Object(props)), own;
        }
        ghost var r, n1, d1 := PropertyAt(Input(), bufpos), created, destroyed;
        var ok, key, next, o := ParseProperty();
        SameOutcome(r, n1, created, d1, destroyed, o);
        if !ok {
          FailInside(r, n0, n1, created, d0, d1, destroyed, own, last);
          own := Destroy(own);
          return None, own;
        }
        if next.Some? {
          NextHeld(r, n0, n1, created, d0, d1, destroyed, own, last, o);
          value, last := next, o;
        } else if value.Some? {
          FailTwice(n0, n1, d0, d1, own, last);
        } else {
          FailHere(n0, n1, d0, d1, own, last);
        }
        if value.Some? {
          own, owns := Rebook(props, owns, key, value.value, self, last, n0, d0);
          props := SetProperty(props, key, value.value);
        }
        AfterEnd(Input(), CLOSE_OBJECT);
        var more := Behind(CLOSE_OBJECT);
        if more.None? {
          if next.Some? { FailHere(n0, created, d0, destroyed, own, last); }
          own := Destroy(own);
          return None, own;
        }
        if !more.value {
          Done(n0, created, d0, destroyed, own, last, whole);
          return Some(Object(props)), own;
        }
      }
    }

    /** What the property `key` held before is destroyed, and it holds `last`. */
    ghost method Rebook(props: seq<Property>, owns: seq<multiset<nat>>, key: Bytes, v: Value, self: multiset<nat>,
                        last: multiset<nat>, n0: nat, d0: multiset<nat>)
      returns (own: multiset<nat>, owns': seq<multiset<nat>>)
      requires |owns| == |props| && self != multiset{} && last != multiset{}
      modifies this`destroyed
      ensures |owns'| == |SetProperty(props, key, v)| > 0 && own == self + Sum(owns')
      ensures destroyed + own == old(destroyed) + ((self + Sum(owns)) + last)
      ensures Held(n0, created, d0, old(destroyed), (self + Sum(owns)) + last, last) ==>
                Held(n0, created, d0, destroyed, own, last)
    {
      hide SetProperty, SetOwn, Replaced, Sum, Held;
      ghost var gone := Replaced(props, owns, key);
      owns' := SetOwn(props, owns, key, last);
      SetOwnSum(props, owns, key, last, v);
      SumNone();
      Shifted(self, Sum(owns), last, gone, Sum(owns'));
      own := self + Sum(owns');
      Rebooked(n0, created, d0, destroyed, self + Sum(owns), last, gone, own);
      destroyed := destroyed + gone;
    }

    /** parse. */
    method ParseValue() returns (ok: bool, v: Option<Value>, ghost own: multiset<nat>)
      requires Valid()
      modifies this`bufpos, this`created, this`destroyed
      ensures Valid()
      ensures var r := ValueAt(Input(), old(bufpos));
              && ok == !r.Failed? && v == ValueOf(r)
              && (r.Parsed? ==> bufpos == r.end) && (r.Empty? ==> bufpos == bufsz)
              && Accounts(r, old(created), created, old(destroyed), destroyed, own)
      decreases bufsz - bufpos, 3
    {
      hide ValueAt, ItemsFrom, PropertyAt, PropertiesFrom, StringFrom, LiteralAt, NumberAt;
      ValueAfterBlanks(Input(), bufpos);
      SkipTwice(Input(), bufpos);
      SkipBlanks();
      NoneBuilt(created, destroyed);
      if bufpos == bufsz { return true, None, multiset{}; }
      v, own := ParseTurn();
      ok := v.Some?;
    }

    method ParseTurn() returns (v: Option<Value>, ghost own: multiset<nat>)
      requires Valid() && bufpos < bufsz && !IsWs(rdbuf[bufpos])
      modifies this`bufpos, this`created, this`destroyed
      ensures Valid()
      ensures var r := ValueAt(Input(), old(bufpos));
              && !r.Empty? && v == ValueOf(r) && (r.Parsed? ==> bufpos == r.end)
              && Accounts(r, old(created), created, old(destroyed), destroyed, own)
      decreases bufsz - bufpos, 2
    {
      hide ValueAt, ItemsFrom, PropertyAt, PropertiesFrom, StringFrom, LiteralAt, NumberAt, Accounts;
      var c := rdbuf[bufpos];
      assert c == Input()[bufpos];
      Turns(Input(), bufpos);
      if c == OPEN_OBJECT {
        v, own := ParseObject();
      } else if c == OPEN_ARRAY {
        v, own := ParseArray();
      } else {
        ghost var r := ValueAt(Input(), bufpos);
        if c == QUOTE {
          var str := ParsePlainString();
          v := StringOf(str);
        } else if c == PLUS || c == MINUS || IsDigit(c, 10) {
          v := ParseNumber();
        } else {
          v := ParseLiteral();
        }
        own := Leaf(r);
      }
    }

    /** A value that contains no other is built once it is known. */
    ghost method Leaf(r: Parsed<Value>) returns (own: multiset<nat>)
      requires !r.Empty? && (r.Failed? ==> !r.twice)
      modifies this`created
      ensures Accounts(r, old(created), created, destroyed, destroyed, own)
    {
      NoneBuilt(created, destroyed);
      own := multiset{};
      if r.Parsed? { own := Build(); }
    }
  }

  // ---------------------------------------------------------------------
  // Who owns the values built

  ghost function Range(a: nat, b: nat): multiset<nat> {
    if b <= a then multiset{} else Range(a, b - 1) + multiset{b - 1}
  }

  lemma {:induction false} RangeBoth(a: nat, b: nat, c: nat)
    requires a <= b <= c
    ensures Range(a, c) == Range(a, b) + Range(b, c)
  {
    if b < c {
      RangeBoth(a, b, c - 1);
      OneLonger(Range(a, b), Range(b, c - 1), Range(a, c - 1), multiset{c - 1});
    } else {
      assert Range(b, c) == multiset{};
    }
  }

  lemma OneLonger(a: multiset<nat>, b: multiset<nat>, all: multiset<nat>, last: multiset<nat>)
    requires all == a + b
    ensures all + last == a + (b + last)
  {}

  lemma {:induction false} RangeOnce(a: nat, b: nat, i: nat)
    ensures Range(a, b)[i] <= 1 && (i in Range(a, b) ==> a <= i < b)
  {
    if a < b { RangeOnce(a, b - 1, i); }
  }

  /**
   The account of a parser call: with success, what was built is owned by the value
   returned, or was destroyed, each once; without, it was destroyed, each once, unless
   a value was taken twice.
   */
  ghost predicate Accounts<T>(r: Parsed<T>, n0: nat, n1: nat, d0: multiset<nat>, d1: multiset<nat>,
                              own: multiset<nat>)
  {
    && n0 <= n1 && d0 <= d1
    && match r
       case Failed(twice) =>
         own == multiset{} && if twice then exists i :: d1[i] >= 2 else d1 == d0 + Range(n0, n1)
       case Empty => own == multiset{} && n1 == n0 && d1 == d0
       case Parsed(_, _) => own != multiset{} && d1 + own == d0 + Range(n0, n1)
  }

  /** The account inside a container that owns `own`, and `last` as part of it. */
  ghost predicate Held(n0: nat, n1: nat, d0: multiset<nat>, d1: multiset<nat>, own: multiset<nat>,
                       last: multiset<nat>)
  {
    n0 < n1 && d0 <= d1 && d1 + own == d0 + Range(n0, n1) && last <= own && own != multiset{}
  }

  lemma NoneBuilt(n: nat, d: multiset<nat>)
    ensures Accounts<Value>(Failed(false), n, n, d, d, multiset{}) && Accounts<Value>(Empty, n, n, d, d, multiset{})
    ensures Accounts<Property>(Failed(false), n, n, d, d, multiset{})
  {}

  lemma Done(n0: nat, n1: nat, d0: multiset<nat>, d1: multiset<nat>, own: multiset<nat>, last: multiset<nat>,
             r: Parsed<Value>)
    requires Held(n0, n1, d0, d1, own, last) && r.Parsed?
    ensures Accounts(r, n0, n1, d0, d1, own)
  {}

  lemma NextHeld<T>(r: Parsed<T>, n0: nat, n1: nat, n2: nat, d0: multiset<nat>, d1: multiset<nat>, d2: multiset<nat>,
                    own: multiset<nat>, last: multiset<nat>, o: multiset<nat>)
    requires Held(n0, n1, d0, d1, own, last) && r.Parsed? && Accounts(r, n1, n2, d1, d2, o)
    ensures Held(n0, n2, d0, d2, own + o, o) && o != multiset{}
  {
    RangeBoth(n0, n1, n2);
    assert d2 + (own + o) == (d2 + o) + own == (d1 + own) + Range(n1, n2);
  }

  lemma FailInside<T>(r: Parsed<T>, n0: nat, n1: nat, n2: nat, d0: multiset<nat>, d1: multiset<nat>, d2: multiset<nat>,
                      own: multiset<nat>, last: multiset<nat>)
    requires Held(n0, n1, d0, d1, own, last) && r.Failed? && Accounts(r, n1, n2, d1, d2, multiset{})
    ensures Accounts<Value>(Failed(r.twice), n0, n2, d0, d2 + own, multiset{})
  {
    RangeBoth(n0, n1, n2);
    if r.twice {
      var i :| d2[i] >= 2;
      assert (d2 + own)[i] >= 2;
    } else {
      assert d2 + own == (d1 + own) + Range(n1, n2);
    }
  }

  lemma FailHere(n0: nat, n1: nat, d0: multiset<nat>, d1: multiset<nat>, own: multiset<nat>, last: multiset<nat>)
    requires Held(n0, n1, d0, d1, own, last)
    ensures Accounts<Value>(Failed(false), n0, n1, d0, d1 + own, multiset{})
  {}

  /** The last member taken again: when all is destroyed, it is destroyed twice. */
  lemma FailTwice(n0: nat, n1: nat, d0: multiset<nat>, d1: multiset<nat>, own: multiset<nat>, last: multiset<nat>)
    requires Held(n0, n1, d0, d1, own, last) && last != multiset{}
    ensures Accounts<Value>(Failed(true), n0, n1, d0, d1 + (own + last), multiset{})
  {
    var i :| i in last;
    assert (d1 + (own + last))[i] >= 2;
  }

  lemma Shifted(self: multiset<nat>, sum: multiset<nat>, o: multiset<nat>, gone: multiset<nat>, sum': multiset<nat>)
    requires sum' + gone == sum + o
    ensures gone + (self + sum') == (self + sum) + o
  {
    assert gone + (self + sum') == self + (sum' + gone);
  }

  /** What a property replaces goes, and `owned` is what the object owns then. */
  lemma Rebooked(n0: nat, n1: nat, d0: multiset<nat>, d1: multiset<nat>, own: multiset<nat>, last: multiset<nat>,
                 gone: multiset<nat>, owned: multiset<nat>)
    requires gone + owned == own + last && last <= owned && owned != multiset{}
    ensures (d1 + gone) + owned == d1 + (own + last)
    ensures Held(n0, n1, d0, d1, own + last, last) ==> Held(n0, n1, d0, d1 + gone, owned, last)
  {
    assert (d1 + gone) + owned == d1 + (gone + owned);
  }

  /** A call that returns no value leaves nothing owned, and without failure builds nothing. */
  lemma SameOutcome<T>(r: Parsed<T>, n0: nat, n1: nat, d0: multiset<nat>, d1: multiset<nat>, own: multiset<nat>)
    requires Accounts(r, n0, n1, d0, d1, own)
    ensures !r.Parsed? ==> own == multiset{}
    ensures r.Empty? ==> n1 == n0 && d1 == d0
  {}

  lemma AfterEnd(s: Bytes, close: Byte)
    requires close != 0
    ensures After(s, |s|, close).Failed?
  {}

  // Values owned by the properties of an object.

  ghost function Sum(owns: seq<multiset<nat>>): multiset<nat> {
    if owns == [] then multiset{} else owns[0] + Sum(owns[1..])
  }

  ghost function SetOwn(props: seq<Property>, owns: seq<multiset<nat>>, key: Bytes, o: multiset<nat>)
    : (r: seq<multiset<nat>>)
    requires |owns| == |props|
  {
    if props == [] then [o]
    else if props[0].key == key then [o] + owns[1..]
    else [owns[0]] + SetOwn(props[1..], owns[1..], key, o)
  }

  ghost function Replaced(props: seq<Property>, owns: seq<multiset<nat>>, key: Bytes): multiset<nat>
    requires |owns| == |props|
  {
    if props == [] then multiset{} else if props[0].key == key then owns[0] else Replaced(props[1..], owns[1..], key)
  }

  lemma SumNone()
    ensures Sum([]) == multiset{}
  {}

  lemma {:induction false} SetOwnSum(props: seq<Property>, owns: seq<multiset<nat>>, key: Bytes, o: multiset<nat>,
                                     v: Value)
    requires |owns| == |props|
    ensures |SetOwn(props, owns, key, o)| == |SetProperty(props, key, v)| && o <= Sum(SetOwn(props, owns, key, o))
    ensures Sum(SetOwn(props, owns, key, o)) + Replaced(props, owns, key) == Sum(owns) + o
  {
    if props == [] {
      assert owns == [] && [o][1..] == [];
    } else if props[0].key == key {
      assert ([o] + owns[1..])[1..] == owns[1..];
      assert (o + Sum(owns[1..])) + owns[0] == (owns[0] + Sum(owns[1..])) + o;
    } else {
      SetOwnSum(props[1..], owns[1..], key, o, v);
      var more := SetOwn(props[1..], owns[1..], key, o);
      assert ([owns[0]] + more)[1..] == more;
      assert (owns[0] + Sum(more)) + Replaced(props[1..], owns[1..], key) == owns[0] + (Sum(owns[1..]) + o);
    }
  }

  /** Which way the parser goes at the first byte of a value. */
  lemma Turns(s: Bytes, i: nat)
    requires i < |s| && !IsWs(s[i])
    ensures s[i] == OPEN_ARRAY ==> ValueAt(s, i) == ItemsFrom(s, i + 1, [])
    ensures s[i] == OPEN_OBJECT ==> ValueAt(s, i) == PropertiesFrom(s, i + 1, [])
    ensures s[i] == QUOTE ==>
              var str := StringFrom(s, i + 1, []);
              ValueAt(s, i) == if str.Parsed? then Parsed(String(str.value), str.end) else Failed(false)
    ensures s[i] == PLUS || s[i] == MINUS || IsDigit(s[i], 10) ==> ValueAt(s, i) == NumberAt(s, i)
    ensures s[i] !in [OPEN_ARRAY, OPEN_OBJECT, QUOTE, PLUS, MINUS] && !IsDigit(s[i], 10) ==>
              ValueAt(s, i) == LiteralAt(s, i)
  {
    assert SkipWs(s, i) == i;
  }

  function StringOf(b: Option<Bytes>): Option<Value> {
    if b.None? then None else Some(String(b.value))
  }

  lemma SkipTwice(s: Bytes, i: nat)
    requires i <= |s|
    ensures SkipWs(s, SkipWs(s, i)) == SkipWs(s, i) && (SkipWs(s, i) < |s| ==> !IsWs(s[SkipWs(s, i)]))
    decreases |s| - i
  {
    if i < |s| && IsWs(s[i]) { SkipTwice(s, i + 1); }
  }

  lemma ValueAfterBlanks(s: Bytes, i: nat)
    requires i <= |s|
    ensures ValueAt(s, i) == ValueAt(s, SkipWs(s, i))
    ensures ValueAt(s, i).Empty? <==> SkipWs(s, i) == |s|
  {
    SkipTwice(s, i);
  }

  /** A property is its key, a colon and its value, and fails with any of them. */
  lemma PropertyIs(s: Bytes, i: nat)
    requires i <= |s|
    ensures StringFrom(s, i + 1, []).Failed? ==> PropertyAt(s, i) == Failed(false)
    ensures StringFrom(s, i + 1, []).Parsed? ==>
              var key := StringFrom(s, i + 1, []);
              var c := SkipWs(s, key.end);
              && (Ch(s, c) != COLON ==> PropertyAt(s, i) == Failed(false))
              && (Ch(s, c) == COLON ==>
                  var v := ValueAt(s, SkipWs(s, c + 1));
                  && (v.Failed? ==> PropertyAt(s, i) == Failed(v.twice))
                  && (v.Empty? ==> PropertyAt(s, i) == Empty)
                  && (v.Parsed? ==> PropertyAt(s, i) == Parsed(Property(key.value, v.value), v.end)))
  {}

  /** One turn of the loop over the items of an array. */
  lemma ItemsIs(s: Bytes, i: nat, items: seq<Value>)
    requires i <= |s|
    ensures var j := SkipWs(s, i);
            var r := ValueAt(s, j);
            if Ch(s, j) == CLOSE_ARRAY then ItemsFrom(s, i, items) == Parsed(Array(items), j + 1)
            else if r.Failed? then ItemsFrom(s, i, items) == Failed(r.twice)
            else if r.Empty? then ItemsFrom(s, i, items) == Failed(items != [])
            else
              var after := After(s, r.end, CLOSE_ARRAY);
              ItemsFrom(s, i, items) ==
              if after.Failed? then Failed(false)
              else if after.value then ItemsFrom(s, after.end, items + [r.value])
              else Parsed(Array(items + [r.value]), after.end)
  {}

  /** One turn of the loop over the properties of an object. */
  lemma PropertiesIs(s: Bytes, i: nat, props: seq<Property>)
    requires i <= |s|
    ensures var j := SkipWs(s, i);
            var r := PropertyAt(s, j);
            if Ch(s, j) == CLOSE_OBJECT then PropertiesFrom(s, i, props) == Parsed(Object(props), j + 1)
            else if r.Failed? then PropertiesFrom(s, i, props) == Failed(r.twice)
            else if r.Empty? then PropertiesFrom(s, i, props) == Failed(props != [])
            else
              var after, more := After(s, r.end, CLOSE_OBJECT), SetProperty(props, r.value.key, r.value.value);
              PropertiesFrom(s, i, props) ==
              if after.Failed? then Failed(false)
              else if after.value then PropertiesFrom(s, after.end, more)
              else Parsed(Object(more), after.end)
  {}

  function ValueOf<T>(p: Parsed<T>): Option<T> {
    if p.Parsed? then Some(p.value) else None
  }

  /**
   PSC_JsonSerializer_deserialize. Every value built belongs to the result, or was
   destroyed, once, unless the text ends where a container with a member wants another:
   then some value was destroyed twice.
   */
  method Deserialize(json: array<Byte>)
    returns (v: Option<Value>, ghost created: nat, ghost destroyed: multiset<nat>, ghost own: multiset<nat>)
    requires 0 in json[..]
    ensures v == Document(json[..Strlen(json[..])])
    ensures v.None? ==> own == multiset{}
    ensures destroyed + own == Range(0, created) <==> ValueAt(json[..Strlen(json[..])], 0) != Failed(true)
  {
    var d := new Deserializer(json);
    ghost var r := ValueAt(d.Input(), 0);
    var ok, value, o := d.ParseValue();
    v, own := value, o;
    NotTwice(r, d.created, d.destroyed, own);
    if v.Some? {
      d.SkipBlanks();
      if d.bufpos != d.bufsz {
        v := None;
        own := d.Destroy(own);
      }
    }
    created, destroyed := d.created, d.destroyed;
  }

  lemma NotTwice(r: Parsed<Value>, n: nat, d: multiset<nat>, own: multiset<nat>)
    requires Accounts(r, 0, n, multiset{}, d, own)
    ensures d + own == Range(0, n) <==> r != Failed(true)
  {
    if r == Failed(true) {
      var i :| d[i] >= 2;
      RangeOnce(0, n, i);
      assert (d + own)[i] >= 2;
    }
  }

  /** `[1,` and `{"a":1,"b":` are such texts. */
  lemma TruncatedTwice()
    ensures ValueAt([OPEN_ARRAY, 0x31, COMMA], 0) == Failed(true)
    ensures ValueAt([OPEN_OBJECT, QUOTE, 0x61, QUOTE, COLON, 0x31, COMMA, QUOTE, 0x62, QUOTE, COLON], 0) == Failed(true)
  {
    var s: Bytes := [OPEN_ARRAY, 0x31, COMMA];
    OneAt(s, 1);
    assert ValueAt(s, 1) == Parsed(Integer(1), 2) && After(s, 2, CLOSE_ARRAY) == Parsed(true, 3);
    assert ItemsFrom(s, 1, []) == ItemsFrom(s, 3, [Integer(1)]) == Failed(true);
    TruncatedObject([OPEN_OBJECT, QUOTE, 0x61, QUOTE, COLON, 0x31, COMMA, QUOTE, 0x62, QUOTE, COLON]);
  }

  lemma OneAt(s: Bytes, i: nat)
    requires i + 1 < |s| && s[i] == 0x31 && s[i + 1] == COMMA
    ensures NumberAt(s, i) == Parsed(Integer(1), i + 1)
  {
    assert DigitsEnd(s, i + 1, 10) == i + 1 && DigitsEnd(s, i, 10) == i + 1;
    assert s[i..i + 1] == [0x31] && [0x31][..0] == [];
    assert NatOf([0x31], 10) == 1;
  }

  lemma KeyAt(s: Bytes, i: nat)
    requires i + 1 < |s| && s[i] !in [QUOTE, BACKSLASH] && s[i + 1] == QUOTE
    ensures StringFrom(s, i, []) == Parsed([s[i]], i + 2)
  {
    assert [] + [s[i]] == [s[i]];
    assert StringFrom(s, i + 1, [s[i]]) == Parsed([s[i]], i + 2);
  }

  lemma TruncatedObject(s: Bytes)
    requires s == [OPEN_OBJECT, QUOTE, 0x61, QUOTE, COLON, 0x31, COMMA, QUOTE, 0x62, QUOTE, COLON]
    ensures ValueAt(s, 0) == Failed(true)
  {
    hide NumberAt, StringFrom, LiteralAt;
    OneAt(s, 5);
    KeyAt(s, 2);
    KeyAt(s, 8);
    assert PropertyAt(s, 1) == Parsed(Property([0x61], Integer(1)), 6);
    assert After(s, 6, CLOSE_OBJECT) == Parsed(true, 7);
    assert PropertyAt(s, 7) == Empty;
    assert PropertiesFrom(s, 1, []) == PropertiesFrom(s, 7, [Property([0x61], Integer(1))]) == Failed(true);
  }

  /** The text ends, but for white space, in a comma or a colon. */
  ghost predicate EndsOpen(s: Bytes) {
    exists k :: 0 <= k < |s| && (s[k] == COMMA || s[k] == COLON) && forall m :: k < m < |s| ==> IsWs(s[m])
  }

  lemma {:induction false} OnlyBlanks(s: Bytes, i: nat)
    requires i <= |s|
    ensures forall m :: i <= m < SkipWs(s, i) ==> IsWs(s[m])
    decreases |s| - i
  {
    if i < |s| && IsWs(s[i]) { OnlyBlanks(s, i + 1); }
  }

  /** No other text makes the parser take a value twice. */
  lemma {:induction false} TwiceEndsOpen(s: Bytes, i: nat)
    requires i <= |s| && ValueAt(s, i) == Failed(true)
    ensures EndsOpen(s)
    decreases |s| - i, 0
  {
    hide StringFrom, NumberAt, LiteralAt, ItemsFrom, PropertiesFrom;
    var j := SkipWs(s, i);
    if s[j] == OPEN_OBJECT { PropertiesTwice(s, j + 1, []); } else { ItemsTwice(s, j + 1, []); }
  }

  lemma {:induction false} ItemsTwice(s: Bytes, i: nat, items: seq<Value>)
    requires i <= |s| && ItemsFrom(s, i, items) == Failed(true) && (items != [] ==> i > 0 && s[i - 1] == COMMA)
    ensures EndsOpen(s)
    decreases |s| - i, 1
  {
    hide ValueAt, ItemsFrom, PropertiesFrom;
    ItemsIs(s, i, items);
    var j := SkipWs(s, i);
    var r := ValueAt(s, j);
    if r.Failed? {
      TwiceEndsOpen(s, j);
    } else if r.Empty? {
      NothingLeft(s, i);
      assert s[i - 1] == COMMA;
    } else {
      ItemsTwice(s, After(s, r.end, CLOSE_ARRAY).end, items + [r.value]);
    }
  }

  lemma {:induction false} PropertiesTwice(s: Bytes, i: nat, props: seq<Property>)
    requires i <= |s| && PropertiesFrom(s, i, props) == Failed(true)
    ensures EndsOpen(s)
    decreases |s| - i, 2
  {
    hide ValueAt, ItemsFrom, PropertiesFrom, PropertyAt, StringFrom, SetProperty;
    PropertiesIs(s, i, props);
    var j := SkipWs(s, i);
    var r := PropertyAt(s, j);
    PropertyIs(s, j);
    if r.Parsed? {
      var more := SetProperty(props, r.value.key, r.value.value);
      PropertiesTwice(s, After(s, r.end, CLOSE_OBJECT).end, more);
    } else {
      var c := SkipWs(s, StringFrom(s, j + 1, []).end);
      if r.Failed? {
        TwiceEndsOpen(s, SkipWs(s, c + 1));
      } else {
        ValueAfterBlanks(s, c + 1);
        NothingLeft(s, c + 1);
        assert s[c] == COLON;
      }
    }
  }

  lemma NothingLeft(s: Bytes, i: nat)
    requires i <= |s| && ValueAt(s, SkipWs(s, i)).Empty?
    ensures forall m :: i <= m < |s| ==> IsWs(s[m])
  {
    ValueAfterBlanks(s, i);
    OnlyBlanks(s, i);
  }

  lemma NoMoreDigits(s: Bytes, i: nat, k: nat, n: nat)
    requires HexValue(s, i, k).None? && k <= n
    ensures HexValue(s, i, n).None?
    decreases n
  {
    if k < n { NoMoreDigits(s, i, k, n - 1); }
  }
}
