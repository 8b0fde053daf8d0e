/**
 The JSON texts that the parser accepts (json.c), as concrete syntax: every way to
 spell a value, with the meaning of each, and the proof that the parser accepts these
 texts and no others.
 */
module JsonGrammar {
  import opened Common
  import opened Texts
  import opened Json
  import opened JsonParser

  /** Spaces, tabs, line feeds and carriage returns. */
  predicate IsBlank(b: Byte) {
    b == 0x20 || b == 0x09 || b == 0x0a || b == 0x0d
  }

  predicate Blank(s: Bytes) {
    forall i :: 0 <= i < |s| ==> IsBlank(s[i])
  }

  // ----- Strings -----

  /** A byte as it is, a named one behind a backslash, a UTF-16 unit, or a pair of surrogates. */
  datatype Letter = Raw(b: Byte) | Named(b: Byte) | Unit(hex: Bytes) | Pair(high: Bytes, low: Bytes)

  /** `"`, `\`, `/`, b, f, n, r and t. */
  function NameOf(b: Byte): Option<Byte> {
    if b == 0x22 || b == 0x5c || b == 0x2f then Some(b)
    else if b == 0x62 then Some(0x08)
    else if b == 0x66 then Some(0x0c)
    else if b == 0x6e then Some(0x0a)
    else if b == 0x72 then Some(0x0d)
    else if b == 0x74 then Some(0x09)
    else None
  }

  predicate Hex(h: Bytes) {
    |h| == 4 && forall i :: 0 <= i < 4 ==> DigitOf(h[i]) >= 0
  }

  function UnitOf(h: Bytes): (u: nat)
    requires Hex(h)
    ensures u < 0x1_0000
  {
    4096 * DigitOf(h[0]) + 256 * DigitOf(h[1]) + 16 * DigitOf(h[2]) + DigitOf(h[3])
  }

  predicate IsHigh(h: Bytes) {
    Hex(h) && 0xd800 <= UnitOf(h) < 0xdc00
  }

  predicate IsLow(h: Bytes) {
    Hex(h) && 0xdc00 <= UnitOf(h) < 0xe000
  }

  predicate LetterOk(l: Letter) {
    match l
    case Raw(b) => b != 0x22 && b != 0x5c
    case Named(b) => NameOf(b).Some?
    case Unit(h) => Hex(h)
    case Pair(h, l) => IsHigh(h) && IsLow(l)
  }

  function LetterText(l: Letter): Bytes {
    match l
    case Raw(b) => [b]
    case Named(b) => [0x5c, b]
    case Unit(h) => [0x5c, 0x75] + h
    case Pair(h, l) => [0x5c, 0x75] + h + [0x5c, 0x75] + l
  }

  /** UTF-8; a surrogate that is not in a pair is written like any other unit. */
  function LetterMeans(l: Letter): Bytes
    requires LetterOk(l)
  {
    match l
    case Raw(b) => [b]
    case Named(b) => [NameOf(b).value]
    case Unit(h) => Utf8(UnitOf(h))
    case Pair(h, l) => Utf8(0x1_0000 + (UnitOf(h) - 0xd800) * 0x400 + (UnitOf(l) - 0xdc00))
  }

  /** Another unit may not follow a high surrogate outside of a pair. */
  predicate StringOk(ls: seq<Letter>) {
    ls == [] ||
    (LetterOk(ls[0]) && StringOk(ls[1..])
     && (ls[0].Unit? && IsHigh(ls[0].hex) && |ls| > 1 ==> !ls[1].Unit? && !ls[1].Pair?))
  }

  /** With the closing quote. */
  function LettersText(ls: seq<Letter>): (t: Bytes)
    ensures t != []
  {
    if ls == [] then [0x22] else LetterText(ls[0]) + LettersText(ls[1..])
  }

  function LettersMean(ls: seq<Letter>): Bytes
    requires StringOk(ls)
  {
    if ls == [] then [] else LetterMeans(ls[0]) + LettersMean(ls[1..])
  }

  // ----- Values -----

  predicate Decimal(ds: Bytes) {
    forall i :: 0 <= i < |ds| ==> 0x30 <= ds[i] <= 0x39
  }

  function DecimalOf(ds: Bytes): nat
    requires Decimal(ds)
  {
    if ds == [] then 0 else 10 * DecimalOf(ds[..|ds| - 1]) + (ds[|ds| - 1] - 0x30)
  }

  /** A comma may come before the end of an array or object that is not empty. */
  datatype Spelling =
    | NullWord
    | BoolWord(b: bool)
    | Number(sign: Bytes, digits: Bytes, fraction: Bytes, exponent: Bytes)
    | StringWord(letters: seq<Letter>)
    | ArrayOf(items: seq<Item>, comma: bool, end: Bytes)
    | ObjectOf(members: seq<Member>, comma: bool, end: Bytes)

  /** A value with the white space around it. */
  datatype Item = Item(before: Bytes, value: Spelling, behind: Bytes)

  /** The parser does not look at the byte that opens a key. */
  datatype Member = Member(before: Bytes, open: Byte, key: seq<Letter>, mid: Bytes, item: Item)

  predicate SignOk(sign: Bytes) {
    sign == [] || sign == [0x2b] || sign == [0x2d]
  }

  predicate FractionOk(f: Bytes) {
    f == [] || (f[0] == 0x2e && Decimal(f[1..]))
  }

  predicate ExponentOk(x: Bytes) {
    x == [] ||
    ((x[0] == 0x65 || x[0] == 0x45)
     && var k := if |x| > 1 && (x[1] == 0x2b || x[1] == 0x2d) then 2 else 1;
        |x| > k && Decimal(x[k..]))
  }

  predicate Ok(t: Spelling)
    decreases t
  {
    match t
    case Number(sign, digits, fraction, exponent) =>
      SignOk(sign) && digits != [] && Decimal(digits) && FractionOk(fraction) && ExponentOk(exponent)
    case StringWord(letters) => StringOk(letters)
    case ArrayOf(items, comma, end) => ItemsOk(items) && (comma ==> items != []) && Blank(end)
    case ObjectOf(members, comma, end) => MembersOk(members) && (comma ==> members != []) && Blank(end)
    case _ => true
  }

  predicate ItemsOk(items: seq<Item>)
    decreases items
  {
    items == [] ||
    (Blank(items[0].before) && Ok(items[0].value) && Blank(items[0].behind) && ItemsOk(items[1..]))
  }

  predicate MembersOk(members: seq<Member>)
    decreases members
  {
    members == [] || (MemberOk(members[0]) && MembersOk(members[1..]))
  }

  predicate MemberOk(m: Member)
    decreases m
  {
    && Blank(m.before) && !IsBlank(m.open) && m.open != 0x7d && StringOk(m.key) && Blank(m.mid)
    && Blank(m.item.before) && Ok(m.item.value) && Blank(m.item.behind)
  }

  function Render(t: Spelling): (r: Bytes)
    ensures Ok(t) ==> r != []
    decreases t
  {
    match t
    case NullWord => [0x6e, 0x75, 0x6c, 0x6c]
    case BoolWord(b) => if b then [0x74, 0x72, 0x75, 0x65] else [0x66, 0x61, 0x6c, 0x73, 0x65]
    case Number(sign, digits, fraction, exponent) => sign + digits + (fraction + exponent)
    case StringWord(letters) => [0x22] + LettersText(letters)
    case ArrayOf(items, comma, end) => [0x5b] + ItemsText(items, comma, end)
    case ObjectOf(members, comma, end) => [0x7b] + MembersText(members, comma, end)
  }

  function CommaIf(c: bool): Bytes {
    if c then [0x2c] else []
  }

  /** Up to the closing bracket. */
  function ItemsText(items: seq<Item>, comma: bool, end: Bytes): (r: Bytes)
    ensures r != []
    decreases items
  {
    if items == [] then end + [0x5d]
    else
      var it := items[0];
      it.before + (Render(it.value)
      + (it.behind + (CommaIf(comma || |items| > 1) + ItemsText(items[1..], comma, end))))
  }

  function MembersText(members: seq<Member>, comma: bool, end: Bytes): (r: Bytes)
    ensures r != []
    decreases members
  {
    if members == [] then end + [0x7d]
    else MemberThen(members[0], comma || |members| > 1, MembersText(members[1..], comma, end))
  }

  /** A member, a comma if there is more, and the rest. */
  function MemberThen(m: Member, more: bool, rest: Bytes): (r: Bytes)
    ensures r != []
    decreases m, 0
  {
    m.before + ([m.open] + (LettersText(m.key) + (m.mid + ([0x3a]
    + (m.item.before + (Render(m.item.value) + (m.item.behind + (CommaIf(more) + rest))))))))
  }

  /** Numbers beyond 64 bits saturate; with a fraction or exponent, a number is what strtod makes of its text. */
  ghost function Meaning(t: Spelling): Value
    requires Ok(t)
    decreases t
  {
    match t
    case NullWord => Null
    case BoolWord(b) => Bool(b)
    case Number(sign, digits, fraction, exponent) =>
      if fraction + exponent == [] then Integer(IntegerOf(sign, digits)) else FloatOf(t)
    case StringWord(letters) => String(LettersMean(letters))
    case ArrayOf(items, _, _) => Array(Values(items))
    case ObjectOf(members, _, _) => Object(Properties([], members))
  }

  function IntegerOf(sign: Bytes, digits: Bytes): int
    requires Decimal(digits)
  {
    var n: int := if sign == [0x2d] then -(DecimalOf(digits) as int) else DecimalOf(digits);
    if n < -0x8000_0000_0000_0000 then -0x8000_0000_0000_0000
    else if n > 0x7fff_ffff_ffff_ffff then 0x7fff_ffff_ffff_ffff
    else n
  }

  ghost function FloatOf(t: Spelling): Value
    requires t.Number? && Ok(t)
  {
    NumberIsNumeral(t);
    Float(Render(t))
  }

  lemma NumberIsNumeral(t: Spelling)
    requires t.Number? && Ok(t)
    ensures forall i :: 0 <= i < |Render(t)| ==> NumeralByte(Render(t)[i])
  {
    var f, x := t.fraction, t.exponent;
    forall i | 0 <= i < |f| ensures NumeralByte(f[i]) { if i > 0 { assert f[i] == f[1..][i - 1]; } }
    forall i | 0 <= i < |x| ensures NumeralByte(x[i]) {
      if i > 1 { assert x[i] == x[1..][i - 1] && x[i] == x[2..][i - 2]; }
      if i == 1 { assert x[1] == x[1..][0]; }
    }
    assert Render(t) == t.sign + t.digits + (f + x);
  }

  ghost function Values(items: seq<Item>): seq<Value>
    requires ItemsOk(items)
    decreases items
  {
    if items == [] then [] else [Meaning(items[0].value)] + Values(items[1..])
  }

  /** A key that comes again changes the value of its property. */
  ghost function Properties(props: seq<Property>, members: seq<Member>): seq<Property>
    requires MembersOk(members)
    decreases members
  {
    if members == [] then props
    else
      assert MemberOk(members[0]);
      Properties(SetProperty(props, LettersMean(members[0].key), Meaning(members[0].item.value)), members[1..])
  }

  /** What comes behind a value in a document: white space, a comma, a bracket, or the end. */
  predicate Delimits(c: Byte) {
    IsBlank(c) || c == 0x2c || c == 0x5d || c == 0x7d || c == 0
  }

  // ----- Every such text is accepted, with its meaning -----

  lemma BlankIsWs(b: Byte)
    ensures IsWs(b) <==> IsBlank(b)
  {}

  lemma {:induction false} BlanksSkipped(s: Bytes, i: nat, n: nat)
    requires i <= n <= |s| && (forall k :: i <= k < n ==> IsBlank(s[k])) && (n < |s| ==> !IsBlank(s[n]))
    ensures SkipWs(s, i) == n
    decreases n - i
  {
    if i < n { BlanksSkipped(s, i + 1, n); }
  }

  /** Behind white space. */
  lemma BlankRead(s: Bytes, i: nat, b: Bytes, rest: Bytes)
    requires Blank(b) && rest != [] && Follows(s, i, b + rest) && !IsBlank(rest[0])
    ensures SkipWs(s, i) == i + |b| && Follows(s, i + |b|, rest) && i + |b| < |s| && s[i + |b|] == rest[0]
  {
    FollowsBoth(s, i, b, rest);
    FollowsAt(s, i + |b|, rest, 0);
    forall k | i <= k < i + |b| ensures IsBlank(s[k]) { FollowsAt(s, i, b, k - i); }
    BlanksSkipped(s, i, i + |b|);
  }

  lemma HexRead(s: Bytes, i: nat, h: Bytes)
    requires Hex(h) && Follows(s, i, h)
    ensures HexValue(s, i, 4) == Some(UnitOf(h))
  {
    FollowsAt(s, i, h, 0);
    FollowsAt(s, i, h, 1);
    FollowsAt(s, i, h, 2);
    FollowsAt(s, i, h, 3);
    DigitsGive(s, i, DigitOf(h[0]), DigitOf(h[1]), DigitOf(h[2]), DigitOf(h[3]));
  }

  lemma DigitsGive(s: Bytes, i: nat, d0: nat, d1: nat, d2: nat, d3: nat)
    requires d0 < 16 && d1 < 16 && d2 < 16 && d3 < 16
    requires Nibble(Ch(s, i)) == Some(d0) && Nibble(Ch(s, i + 1)) == Some(d1)
    requires Nibble(Ch(s, i + 2)) == Some(d2) && Nibble(Ch(s, i + 3)) == Some(d3)
    ensures HexValue(s, i, 4) == Some(4096 * d0 + 256 * d1 + 16 * d2 + d3)
  {
    assert HexValue(s, i, 1) == Some(d0);
    assert HexValue(s, i, 2) == Some(16 * d0 + d1);
    assert HexValue(s, i, 3) == Some(256 * d0 + 16 * d1 + d2);
  }

  lemma UnitRead(s: Bytes, i: nat, h: Bytes)
    requires Hex(h) && Follows(s, i, [0x5c, 0x75] + h)
    ensures Ch(s, i) == 0x5c && Ch(s, i + 1) == 0x75 && HexValue(s, i + 2, 4) == Some(UnitOf(h)) && i + 6 <= |s|
  {
    FollowsBoth(s, i, [0x5c, 0x75], h);
    FollowsAt(s, i, [0x5c, 0x75], 0);
    FollowsAt(s, i, [0x5c, 0x75], 1);
    HexRead(s, i + 2, h);
  }

  /** A letter that starts with a backslash. */
  lemma LetterRead(s: Bytes, i: nat, l: Letter)
    requires LetterOk(l) && !l.Raw? && Follows(s, i, LetterText(l))
    requires l.Unit? && IsHigh(l.hex) ==> Ch(s, i + 6) != 0x5c || Ch(s, i + 7) != 0x75
    ensures i < |s| && s[i] == 0x5c && EscapeAt(s, i + 1) == Parsed(LetterMeans(l), i + |LetterText(l)|)
  {
    hide EscapeAt, LetterMeans;
    match l
    case Named(b) => NamedRead(s, i, b);
    case Unit(h) => OneUnitRead(s, i, h);
    case Pair(h, l) => PairRead(s, i, h, l);
  }

  lemma NamedRead(s: Bytes, i: nat, b: Byte)
    requires NameOf(b).Some? && Follows(s, i, [0x5c, b])
    ensures i < |s| && s[i] == 0x5c && EscapeAt(s, i + 1) == Parsed(LetterMeans(Named(b)), i + 2)
  {
    hide UnicodeAt;
    FollowsAt(s, i, [0x5c, b], 0);
    FollowsAt(s, i, [0x5c, b], 1);
  }

  lemma OneUnitRead(s: Bytes, i: nat, h: Bytes)
    requires Hex(h) && Follows(s, i, [0x5c, 0x75] + h)
    requires IsHigh(h) ==> Ch(s, i + 6) != 0x5c || Ch(s, i + 7) != 0x75
    ensures i < |s| && s[i] == 0x5c && EscapeAt(s, i + 1) == Parsed(LetterMeans(Unit(h)), i + 6)
  {
    hide HexValue, Utf8, UnitOf;
    UnitRead(s, i, h);
  }

  lemma PairRead(s: Bytes, i: nat, h: Bytes, l: Bytes)
    requires IsHigh(h) && IsLow(l) && Follows(s, i, LetterText(Pair(h, l)))
    ensures i < |s| && s[i] == 0x5c && EscapeAt(s, i + 1) == Parsed(LetterMeans(Pair(h, l)), i + 12)
    ensures |LetterText(Pair(h, l))| == 12
  {
    hide HexValue, Utf8, UnitOf;
    assert LetterText(Pair(h, l)) == ([0x5c, 0x75] + h) + ([0x5c, 0x75] + l);
    FollowsBoth(s, i, [0x5c, 0x75] + h, [0x5c, 0x75] + l);
    UnitRead(s, i, h);
    UnitRead(s, i + 6, l);
  }

  lemma NextLetter(s: Bytes, i: nat, ls: seq<Letter>)
    requires StringOk(ls) && Follows(s, i, LettersText(ls))
    ensures i < |s|
    ensures ls == [] ==> s[i] == 0x22
    ensures ls != [] && !ls[0].Unit? && !ls[0].Pair? ==> s[i] != 0x5c || Ch(s, i + 1) != 0x75
  {
    FollowsAt(s, i, LettersText(ls), 0);
    if ls != [] && ls[0].Named? { FollowsAt(s, i, LettersText(ls), 1); }
  }

  lemma {:induction false} LettersRead(s: Bytes, i: nat, acc: Bytes, ls: seq<Letter>)
    requires StringOk(ls) && Follows(s, i, LettersText(ls))
    ensures StringFrom(s, i, acc) == Parsed(acc + LettersMean(ls), i + |LettersText(ls)|)
    decreases |ls|
  {
    hide EscapeAt, LetterText, LetterMeans, LetterOk;
    NextLetter(s, i, ls);
    if ls == [] {
      assert acc + [] == acc;
    } else {
      var l, t := ls[0], LetterText(ls[0]);
      FollowsBoth(s, i, t, LettersText(ls[1..]));
      NextLetter(s, i + |t|, ls[1..]);
      if l.Unit? { UnitLength(l); }
      OneLetter(s, i, acc, l);
      LettersRead(s, i + |t|, acc + LetterMeans(l), ls[1..]);
      Regroup(acc, LetterMeans(l), LettersMean(ls[1..]));
    }
  }

  lemma UnitLength(l: Letter)
    requires LetterOk(l) && l.Unit?
    ensures |LetterText(l)| == 6
  {}

  lemma OneLetter(s: Bytes, i: nat, acc: Bytes, l: Letter)
    requires LetterOk(l) && Follows(s, i, LetterText(l))
    requires l.Unit? && IsHigh(l.hex) ==> Ch(s, i + 6) != 0x5c || Ch(s, i + 7) != 0x75
    ensures StringFrom(s, i, acc) == StringFrom(s, i + |LetterText(l)|, acc + LetterMeans(l))
  {
    hide EscapeAt;
    if l.Raw? { FollowsAt(s, i, [l.b], 0); } else { LetterRead(s, i, l); }
  }

  lemma DecimalIs(ds: Bytes)
    requires Decimal(ds)
    ensures NatOf(ds, 10) == DecimalOf(ds)
  {
    if ds != [] { DecimalIs(ds[..|ds| - 1]); }
  }

  /** A row of digits, and something else behind it. */
  lemma DigitsRead(s: Bytes, i: nat, ds: Bytes)
    requires Decimal(ds) && Follows(s, i, ds) && !(0x30 <= Ch(s, i + |ds|) <= 0x39)
    ensures DigitsEnd(s, i, 10) == i + |ds| <= |s|
  {
    forall k | i <= k < i + |ds| ensures IsDigit(s[k], 10) { FollowsAt(s, i, ds, k - i); }
    DigitsStop(s, i, i + |ds|, 10);
  }

  lemma IntegerRead(s: Bytes, i: nat, sign: Bytes, ds: Bytes)
    requires SignOk(sign) && ds != [] && Decimal(ds) && Follows(s, i, sign + ds)
    requires !(0x30 <= Ch(s, i + |sign| + |ds|) <= 0x39)
    ensures i < |s| && (s[i] == PLUS || s[i] == MINUS || IsDigit(s[i], 10)) && !IsBlank(s[i])
    ensures Strtoll(s, i) == (IntegerOf(sign, ds), i + |sign| + |ds|)
  {
    hide DigitsEnd, NatOf, DecimalOf;
    var e := i + |sign| + |ds|;
    FollowsBoth(s, i, sign, ds);
    FollowsAt(s, i + |sign|, ds, 0);
    if sign != [] { FollowsAt(s, i, sign, 0); }
    DigitsRead(s, i + |sign|, ds);
    assert s[i + |sign|..e] == ds;
    DecimalIs(ds);
  }

  lemma FractionRead(s: Bytes, e: nat, f: Bytes, x: Bytes)
    requires FractionOk(f) && ExponentOk(x) && Follows(s, e, f + x) && Delimits(Ch(s, e + |f| + |x|))
    ensures Follows(s, e, f) && Follows(s, e + |f|, x)
    ensures (if Ch(s, e) == 0x2e then DigitsEnd(s, e + 1, 10) else e) == e + |f| <= |s|
    ensures FloatMark(Ch(s, e)) <==> f + x != []
  {
    hide DigitsEnd;
    FollowsBoth(s, e, f, x);
    if x != [] { FollowsAt(s, e + |f|, x, 0); }
    if f != [] {
      FollowsAt(s, e, f, 0);
      assert f == [f[0]] + f[1..];
      FollowsBoth(s, e, [f[0]], f[1..]);
      DigitsRead(s, e + 1, f[1..]);
    }
  }

  function SignAt(x: Bytes): nat {
    if |x| > 1 && (x[1] == 0x2b || x[1] == 0x2d) then 2 else 1
  }

  lemma ExponentStarts(s: Bytes, f: nat, x: Bytes)
    requires ExponentOk(x) && x != [] && Follows(s, f, x)
    ensures var k := SignAt(x);
            && k < |x| && Decimal(x[k..]) && Follows(s, f + k, x[k..])
            && (Ch(s, f) == 0x65 || Ch(s, f) == 0x45)
            && (k == 2 <==> Ch(s, f + 1) == 0x2b || Ch(s, f + 1) == 0x2d)
  {
    var k := SignAt(x);
    FollowsAt(s, f, x, 0);
    FollowsAt(s, f, x, 1);
    assert x == x[..k] + x[k..];
    FollowsBoth(s, f, x[..k], x[k..]);
    if k == 1 { assert x[1..][0] == x[1]; }
  }

  lemma ExponentRead(s: Bytes, f: nat, x: Bytes)
    requires f <= |s| && ExponentOk(x) && Follows(s, f, x) && Delimits(Ch(s, f + |x|))
    ensures var e := if Ch(s, f) == 0x65 || Ch(s, f) == 0x45 then f + 1 else f;
            var d := if e > f && (Ch(s, e) == PLUS || Ch(s, e) == MINUS) then e + 1 else e;
            && d <= |s|
            && f + |x| == if e > f && DigitsEnd(s, d, 10) > d then DigitsEnd(s, d, 10) else f
  {
    hide DigitsEnd, Decimal, ExponentOk, Follows;
    if x != [] {
      var k := SignAt(x);
      ExponentStarts(s, f, x);
      DigitsRead(s, f + k, x[k..]);
    }
  }

  lemma FloatRead(s: Bytes, e: nat, f: Bytes, x: Bytes)
    requires e <= |s| && FractionOk(f) && ExponentOk(x) && Follows(s, e, f + x) && Delimits(Ch(s, e + |f| + |x|))
    ensures FloatEnd(s, e) == e + |f| + |x|
  {
    hide DigitsEnd, Delimits, ExponentOk, FractionOk;
    FractionRead(s, e, f, x);
    ExponentRead(s, e + |f|, x);
  }

  lemma NumberAtRead(s: Bytes, i: nat, sign: Bytes, digits: Bytes, f: Bytes, x: Bytes)
    requires SignOk(sign) && digits != [] && Decimal(digits) && FractionOk(f) && ExponentOk(x)
    requires Follows(s, i, (sign + digits) + (f + x)) && Delimits(Ch(s, i + |sign| + |digits| + |f| + |x|))
    ensures i < |s| && (s[i] == PLUS || s[i] == MINUS || IsDigit(s[i], 10)) && !IsBlank(s[i])
    ensures var e := i + |sign| + |digits|;
            && Strtoll(s, i) == (IntegerOf(sign, digits), e) && i < e <= |s| && (FloatMark(Ch(s, e)) <==> f + x != [])
            && FloatEnd(s, e) == e + |f| + |x|
  {
    hide Strtoll, FloatEnd, IntegerOf, FractionOk, ExponentOk, Decimal, Delimits, Follows;
    var e := i + |sign| + |digits|;
    FollowsBoth(s, i, sign + digits, f + x);
    FractionRead(s, e, f, x);
    NotDigit(s, e, f, x);
    IntegerRead(s, i, sign, digits);
    FloatRead(s, e, f, x);
  }

  lemma NumberRead(s: Bytes, i: nat, t: Spelling)
    requires t.Number? && Ok(t) && Follows(s, i, Render(t)) && Delimits(Ch(s, i + |Render(t)|))
    ensures i < |s| && ValueAt(s, i) == Parsed(Meaning(t), i + |Render(t)|) && !IsBlank(s[i])
  {
    hide Strtoll, FloatEnd, ValueAt, IntegerOf, FractionOk, ExponentOk, Decimal, Delimits;
    NumberAtRead(s, i, t.sign, t.digits, t.fraction, t.exponent);
    Turns(s, i);
    var e := i + |t.sign| + |t.digits|;
    assert s[i..e + |t.fraction| + |t.exponent|] == Render(t);
    if t.fraction + t.exponent != [] {
      FloatIsNumeral(s, i);
      NumberIsNumeral(t);
    }
  }

  lemma NotDigit(s: Bytes, e: nat, f: Bytes, x: Bytes)
    requires FractionOk(f) && ExponentOk(x) && Follows(s, e, f + x) && Delimits(Ch(s, e + |f| + |x|))
    ensures !(0x30 <= Ch(s, e) <= 0x39)
  {
    if f + x != [] { FollowsAt(s, e, f + x, 0); }
  }

  /** A value starts with none of the bytes that the parser looks for between values. */
  lemma RenderStarts(t: Spelling)
    requires Ok(t)
    ensures var r := Render(t); !IsBlank(r[0]) && r[0] != 0x2c && r[0] != 0x5d && r[0] != 0x7d
  {
    if t.Number? && t.sign == [] { assert Render(t)[0] == t.digits[0]; }
  }

  lemma CommaRead(s: Bytes, i: nat, behind: Bytes, close: Byte, rest: Bytes)
    requires Blank(behind) && (close == 0x5d || close == 0x7d) && Follows(s, i, behind + ([0x2c] + rest))
    ensures i <= |s| && After(s, i, close) == Parsed(true, i + |behind| + 1) && Follows(s, i + |behind| + 1, rest)
  {
    hide Follows, Blank;
    BlankRead(s, i, behind, [0x2c] + rest);
    FollowsBoth(s, i + |behind|, [0x2c], rest);
  }

  lemma CloseRead(s: Bytes, i: nat, behind: Bytes, close: Byte)
    requires Blank(behind) && (close == 0x5d || close == 0x7d) && Follows(s, i, behind + [close])
    ensures i <= |s| && After(s, i, close) == Parsed(false, i + |behind| + 1)
  {
    hide Follows, Blank;
    BlankRead(s, i, behind, [close]);
  }

  /** What comes behind an item: a comma and more, or the end. */
  lemma BehindRead(s: Bytes, i: nat, behind: Bytes, more: bool, end: Bytes, close: Byte, rest: Bytes)
    requires Blank(behind) && Blank(end) && (close == 0x5d || close == 0x7d)
    requires Follows(s, i, behind + (CommaIf(more) + rest)) && (!more ==> rest == end + [close])
    ensures i < |s| && Delimits(s[i])
    ensures After(s, i, close) == Parsed(more, if more then i + |behind| + 1 else i + |behind| + |rest|)
    ensures more ==> Follows(s, i + |behind| + 1, rest)
  {
    hide Follows, Delimits, After, IsBlank;
    BehindDelimits(behind, more, end, close, rest);
    FollowsAt(s, i, behind + (CommaIf(more) + rest), 0);
    if more {
      CommaRead(s, i, behind, close, rest);
    } else {
      assert behind + ([] + rest) == (behind + end) + [close];
      CloseRead(s, i, behind + end, close);
    }
  }

  lemma LiteralRead(s: Bytes, i: nat, t: Spelling)
    requires (t.NullWord? || t.BoolWord?) && Follows(s, i, Render(t))
    ensures i < |s| && ValueAt(s, i) == Parsed(Meaning(t), i + |Render(t)|)
  {
    FollowsAt(s, i, Render(t), 0);
    Turns(s, i);
    assert LiteralAt(s, i) == Parsed(Meaning(t), i + |Render(t)|);
  }

  lemma StringRead(s: Bytes, i: nat, ls: seq<Letter>)
    requires StringOk(ls) && Follows(s, i, [0x22] + LettersText(ls))
    ensures i < |s| && ValueAt(s, i) == Parsed(String(LettersMean(ls)), i + 1 + |LettersText(ls)|)
  {
    hide StringFrom, ValueAt, LettersText, LettersMean;
    FollowsBoth(s, i, [0x22], LettersText(ls));
    FollowsAt(s, i, [0x22], 0);
    LettersRead(s, i + 1, [], ls);
    Turns(s, i);
    assert [] + LettersMean(ls) == LettersMean(ls);
  }

  lemma {:induction false} ValueRead(s: Bytes, i: nat, t: Spelling)
    requires Ok(t) && Follows(s, i, Render(t)) && Delimits(Ch(s, i + |Render(t)|))
    ensures ValueAt(s, i) == Parsed(Meaning(t), i + |Render(t)|)
    decreases t, 0
  {
    hide ValueAt, ItemsFrom, PropertiesFrom, ItemsText, MembersText, Values, Properties, LettersText, LettersMean,
      Delimits;
    match t
    case ArrayOf(items, comma, end) =>
      FollowsBoth(s, i, [0x5b], ItemsText(items, comma, end));
      FollowsAt(s, i, [0x5b], 0);
      Turns(s, i);
      ItemsRead(s, i + 1, items, comma, end, []);
      assert [] + Values(items) == Values(items);
    case ObjectOf(members, comma, end) =>
      FollowsBoth(s, i, [0x7b], MembersText(members, comma, end));
      FollowsAt(s, i, [0x7b], 0);
      Turns(s, i);
      MembersRead(s, i + 1, members, comma, end, []);
    case Number(_, _, _, _) => NumberRead(s, i, t);
    case StringWord(letters) => StringRead(s, i, letters);
    case _ => LiteralRead(s, i, t);
  }

  /** Where a value is that has white space in front. */
  lemma InFront(s: Bytes, i: nat, before: Bytes, t: Spelling, rest: Bytes)
    requires Blank(before) && Ok(t) && rest != [] && Follows(s, i, before + (Render(t) + rest)) && Delimits(rest[0])
    ensures var j := i + |before|;
            && SkipWs(s, i) == j && SkipWs(s, j) == j && Follows(s, j, Render(t)) && Follows(s, j + |Render(t)|, rest)
            && j < |s| && s[j] == Render(t)[0] && Delimits(Ch(s, j + |Render(t)|))
  {
    hide Render, Delimits;
    RenderStarts(t);
    BlankRead(s, i, before, Render(t) + rest);
    FollowsBoth(s, i + |before|, Render(t), rest);
    FollowsAt(s, i + |before| + |Render(t)|, rest, 0);
    BlanksSkipped(s, i + |before|, i + |before|);
  }

  /** An item with what is behind it. */
  lemma ItemRead(s: Bytes, i: nat, it: Item, more: bool, end: Bytes, close: Byte, rest: Bytes) returns (e: nat)
    requires Blank(it.before) && Ok(it.value) && Blank(it.behind) && Blank(end)
    requires (close == 0x5d || close == 0x7d) && (!more ==> rest == end + [close])
    requires Follows(s, i, it.before + (Render(it.value) + (it.behind + (CommaIf(more) + rest))))
    ensures e == i + |it.before| + |Render(it.value)| <= |s|
    ensures var j := SkipWs(s, i); Ch(s, j) != close && ValueAt(s, j) == Parsed(Meaning(it.value), e)
    ensures After(s, e, close) == Parsed(more, if more then e + |it.behind| + 1 else e + |it.behind| + |rest|)
    ensures more ==> Follows(s, e + |it.behind| + 1, rest)
    decreases it.value, 1
  {
    hide ValueAt, Render, Delimits, After, Follows, Ok, Blank, SkipWs;
    BehindDelimits(it.behind, more, end, close, rest);
    InFront(s, i, it.before, it.value, it.behind + (CommaIf(more) + rest));
    RenderStarts(it.value);
    ValueRead(s, i + |it.before|, it.value);
    e := i + |it.before| + |Render(it.value)|;
    BehindRead(s, e, it.behind, more, end, close, rest);
  }

  lemma {:induction false} ItemsRead(s: Bytes, i: nat, items: seq<Item>, comma: bool, end: Bytes, acc: seq<Value>)
    requires ItemsOk(items) && Blank(end) && Follows(s, i, ItemsText(items, comma, end))
    ensures ItemsFrom(s, i, acc) == Parsed(Array(acc + Values(items)), i + |ItemsText(items, comma, end)|)
    decreases items
  {
    hide ValueAt, ItemsFrom, Render, After, Follows, Ok, Blank, SkipWs, Meaning;
    FollowsEnds(s, i, ItemsText(items, comma, end));
    ItemsIs(s, i, acc);
    if items == [] {
      NothingBlank(s, i, end, 0x5d);
      assert acc + [] == acc;
    } else {
      var it, more, rest := items[0], comma || |items| > 1, ItemsText(items[1..], comma, end);
      var e := ItemRead(s, i, it, more, end, 0x5d, rest);
      Regroup(acc, [Meaning(it.value)], Values(items[1..]));
      assert !more ==> items[1..] == [] && acc + [Meaning(it.value)] + [] == acc + [Meaning(it.value)];
      if more { ItemsRead(s, e + |it.behind| + 1, items[1..], comma, end, acc + [Meaning(it.value)]); }
    }
  }

  lemma FollowsEnds(s: Bytes, i: nat, t: Bytes)
    requires Follows(s, i, t)
    ensures i + |t| <= |s|
  {}

  lemma NothingBlank(s: Bytes, i: nat, end: Bytes, close: Byte)
    requires Blank(end) && !IsBlank(close) && Follows(s, i, end + [close])
    ensures i <= |s| && SkipWs(s, i) == i + |end| < |s| && Ch(s, i + |end|) == close
  {
    BlankRead(s, i, end, [close]);
  }

  lemma {:induction false} MembersRead(s: Bytes, i: nat, members: seq<Member>, comma: bool, end: Bytes,
                                       props: seq<Property>)
    requires MembersOk(members) && Blank(end) && Follows(s, i, MembersText(members, comma, end))
    ensures PropertiesFrom(s, i, props) ==
            Parsed(Object(Properties(props, members)), i + |MembersText(members, comma, end)|)
    decreases members
  {
    hide ValueAt, PropertiesFrom, PropertyAt, Render, After, SetProperty, LettersText, LettersMean, StringFrom, Follows,
      Ok, Blank, SkipWs, Meaning, StringOk;
    FollowsEnds(s, i, MembersText(members, comma, end));
    PropertiesIs(s, i, props);
    if members == [] {
      NothingBlank(s, i, end, 0x7d);
    } else {
      var m, more, rest := members[0], comma || |members| > 1, MembersText(members[1..], comma, end);
      var e := MemberRead(s, i, m, more, end, rest);
      var props' := SetProperty(props, LettersMean(m.key), Meaning(m.item.value));
      if more { MembersRead(s, e + |m.item.behind| + 1, members[1..], comma, end, props'); }
    }
  }

  /** A key with its colon. */
  lemma KeyRead(s: Bytes, i: nat, m: Member, value: Bytes) returns (c: nat)
    requires Blank(m.before) && !IsBlank(m.open) && StringOk(m.key) && Blank(m.mid)
    requires Follows(s, i, m.before + ([m.open] + (LettersText(m.key) + (m.mid + ([0x3a] + value)))))
    ensures c == i + |m.before| + 1 + |LettersText(m.key)| + |m.mid| && Follows(s, c + 1, value) && i <= |s|
    ensures var j := i + |m.before|;
            && SkipWs(s, i) == j && Ch(s, j) == m.open
            && var key := StringFrom(s, j + 1, []);
               key.Parsed? && key.value == LettersMean(m.key) && SkipWs(s, key.end) == c && Ch(s, c) == 0x3a
  {
    hide LettersText, LettersMean, StringFrom, Follows, SkipWs, Blank;
    var key := LettersText(m.key) + (m.mid + ([0x3a] + value));
    var j, k := i + |m.before|, i + |m.before| + 1 + |LettersText(m.key)|;
    BlankRead(s, i, m.before, [m.open] + key);
    FollowsBoth(s, j, [m.open], key);
    FollowsBoth(s, j + 1, LettersText(m.key), m.mid + ([0x3a] + value));
    LettersRead(s, j + 1, [], m.key);
    assert [] + LettersMean(m.key) == LettersMean(m.key);
    BlankRead(s, k, m.mid, [0x3a] + value);
    FollowsBoth(s, k + |m.mid|, [0x3a], value);
    c := k + |m.mid|;
  }

  lemma MemberRead(s: Bytes, i: nat, m: Member, more: bool, end: Bytes, rest: Bytes) returns (e: nat)
    requires Blank(m.before) && !IsBlank(m.open) && m.open != 0x7d && StringOk(m.key) && Blank(m.mid)
    requires Blank(m.item.before) && Ok(m.item.value) && Blank(m.item.behind) && Blank(end)
    requires !more ==> rest == end + [0x7d]
    requires Follows(s, i, MemberThen(m, more, rest))
    ensures var j := SkipWs(s, i);
            && Ch(s, j) != 0x7d && e <= |s|
            && PropertyAt(s, j) == Parsed(Property(LettersMean(m.key), Meaning(m.item.value)), e)
    ensures e + |m.item.behind| + |CommaIf(more)| + |rest| == i + |MemberThen(m, more, rest)|
    ensures After(s, e, 0x7d) == Parsed(more, if more then e + |m.item.behind| + 1 else e + |m.item.behind| + |rest|)
    ensures more ==> Follows(s, e + |m.item.behind| + 1, rest)
    decreases m.item.value, 2
  {
    hide ValueAt, PropertyAt, Render, LettersText, LettersMean, StringFrom, Follows, Ok, Blank, SkipWs, Meaning, After,
      StringOk, IsBlank;
    var value := m.item.before + (Render(m.item.value) + (m.item.behind + (CommaIf(more) + rest)));
    var c := KeyRead(s, i, m, value);
    e := ItemRead(s, c + 1, m.item, more, end, 0x7d, rest);
    PropertyIs(s, i + |m.before|);
  }

  lemma BehindDelimits(behind: Bytes, more: bool, end: Bytes, close: Byte, rest: Bytes)
    requires Blank(behind) && Blank(end) && (close == 0x5d || close == 0x7d) && (!more ==> rest == end + [close])
    ensures var t := behind + (CommaIf(more) + rest); t != [] && Delimits(t[0])
  {}

  // ----- And no others -----

  lemma FollowsJoin(s: Bytes, i: nat, a: Bytes, b: Bytes)
    requires Follows(s, i, a) && Follows(s, i + |a|, b)
    ensures Follows(s, i, a + b)
  {
    assert s[i..i + |a + b|] == s[i..i + |a|] + s[i + |a|..i + |a| + |b|];
  }

  lemma HexSpelled(s: Bytes, i: nat)
    requires HexValue(s, i, 4).Some?
    ensures i + 4 <= |s| && Hex(s[i..i + 4]) && HexValue(s, i, 4) == Some(UnitOf(s[i..i + 4]))
  {
    assert HexValue(s, i, 3).Some? && HexValue(s, i, 2).Some? && HexValue(s, i, 1).Some?;
    var h := s[i..i + 4];
    forall k | 0 <= k < 4 ensures DigitOf(h[k]) >= 0 {
      assert h[k] == s[i + k];
      NibbleIsDigit(h[k]);
    }
    HexRead(s, i, h);
  }

  lemma UnitSpelled(s: Bytes, i: nat)
    requires Ch(s, i) == 0x5c && Ch(s, i + 1) == 0x75 && HexValue(s, i + 2, 4).Some?
    ensures i + 6 <= |s| && Hex(s[i + 2..i + 6]) && HexValue(s, i + 2, 4) == Some(UnitOf(s[i + 2..i + 6]))
    ensures Follows(s, i, [0x5c, 0x75] + s[i + 2..i + 6])
  {
    HexSpelled(s, i + 2);
    assert s[i..i + 6] == [0x5c, 0x75] + s[i + 2..i + 6];
  }

  /** What stands at a backslash that the parser accepts. */
  lemma EscapeSpelled(s: Bytes, i: nat) returns (l: Letter)
    requires i < |s| && s[i] == 0x5c && EscapeAt(s, i + 1).Parsed?
    ensures LetterOk(l) && !l.Raw? && Follows(s, i, LetterText(l))
    ensures EscapeAt(s, i + 1) == Parsed(LetterMeans(l), i + |LetterText(l)|)
    ensures l.Unit? && IsHigh(l.hex) ==> Ch(s, i + 6) != 0x5c || Ch(s, i + 7) != 0x75
  {
    hide HexValue, Utf8, UnitOf;
    var c := Ch(s, i + 1);
    if c == 0x75 {
      UnitSpelled(s, i);
      var h := s[i + 2..i + 6];
      if Ch(s, i + 6) == 0x5c && Ch(s, i + 7) == 0x75 && IsHigh(h) {
        UnitSpelled(s, i + 6);
        l := Pair(h, s[i + 8..i + 12]);
        FollowsJoin(s, i, [0x5c, 0x75] + h, [0x5c, 0x75] + s[i + 8..i + 12]);
        assert LetterText(l) == ([0x5c, 0x75] + h) + ([0x5c, 0x75] + s[i + 8..i + 12]);
      } else {
        l := Unit(h);
      }
    } else {
      l := Named(c);
      assert s[i..i + 2] == [0x5c, c];
    }
  }

  lemma {:induction false} LettersSpelled(s: Bytes, i: nat, acc: Bytes) returns (ls: seq<Letter>)
    requires StringFrom(s, i, acc).Parsed?
    ensures StringOk(ls) && Follows(s, i, LettersText(ls))
    ensures StringFrom(s, i, acc) == Parsed(acc + LettersMean(ls), i + |LettersText(ls)|)
    decreases |s| - i
  {
    hide EscapeAt, LetterText, LetterMeans, LetterOk;
    if s[i] == 0x22 {
      ls := [];
      assert s[i..i + 1] == [0x22] && acc + [] == acc;
    } else {
      var l := LetterSpelled(s, i, acc);
      var rest := LettersSpelled(s, i + |LetterText(l)|, acc + LetterMeans(l));
      ls := [l] + rest;
      assert ls[1..] == rest;
      FollowsJoin(s, i, LetterText(l), LettersText(rest));
      Regroup(acc, LetterMeans(l), LettersMean(rest));
      if l.Unit? && IsHigh(l.hex) && rest != [] && (rest[0].Unit? || rest[0].Pair?) {
        UnitLength(l);
        UnitStarts(s, i + 6, rest);
      }
    }
  }

  lemma UnitStarts(s: Bytes, i: nat, ls: seq<Letter>)
    requires ls != [] && Follows(s, i, LettersText(ls)) && (ls[0].Unit? || ls[0].Pair?)
    ensures Ch(s, i) == 0x5c && Ch(s, i + 1) == 0x75
  {
    FollowsAt(s, i, LettersText(ls), 0);
    FollowsAt(s, i, LettersText(ls), 1);
  }

  lemma LetterSpelled(s: Bytes, i: nat, acc: Bytes) returns (l: Letter)
    requires i < |s| && s[i] != 0x22 && StringFrom(s, i, acc).Parsed?
    ensures LetterOk(l) && Follows(s, i, LetterText(l)) && LetterText(l) != []
    ensures StringFrom(s, i, acc) == StringFrom(s, i + |LetterText(l)|, acc + LetterMeans(l))
    ensures l.Unit? && IsHigh(l.hex) ==> Ch(s, i + 6) != 0x5c || Ch(s, i + 7) != 0x75
  {
    hide EscapeAt;
    if s[i] == 0x5c {
      l := EscapeSpelled(s, i);
    } else {
      l := Raw(s[i]);
      assert s[i..i + 1] == [s[i]];
    }
  }

  lemma BlanksAre(s: Bytes, i: nat)
    requires i <= |s|
    ensures Blank(s[i..SkipWs(s, i)]) && Follows(s, i, s[i..SkipWs(s, i)])
    ensures SkipWs(s, i) < |s| ==> !IsBlank(s[SkipWs(s, i)])
    decreases |s| - i
  {
    OnlyBlanks(s, i);
    SkipTwice(s, i);
  }

  lemma DigitsAre(s: Bytes, i: nat)
    requires i <= |s|
    ensures Decimal(s[i..DigitsEnd(s, i, 10)]) && Follows(s, i, s[i..DigitsEnd(s, i, 10)])
  {
    AllDigits(s, i);
  }

  lemma FractionSpelled(s: Bytes, e: nat) returns (f: Bytes)
    requires e <= |s|
    ensures FractionOk(f) && Follows(s, e, f)
    ensures e + |f| == if Ch(s, e) == 0x2e then DigitsEnd(s, e + 1, 10) else e
  {
    hide DigitsEnd;
    if Ch(s, e) == 0x2e {
      var d := DigitsEnd(s, e + 1, 10);
      f := s[e..d];
      DigitsAre(s, e + 1);
      assert f[1..] == s[e + 1..d];
    } else {
      f := [];
    }
  }

  lemma ExponentSpelled(s: Bytes, f: nat) returns (x: Bytes)
    requires f <= |s|
    ensures ExponentOk(x) && Follows(s, f, x)
    ensures var e := if Ch(s, f) == 0x65 || Ch(s, f) == 0x45 then f + 1 else f;
            var d := if e > f && (Ch(s, e) == PLUS || Ch(s, e) == MINUS) then e + 1 else e;
            d <= |s| && f + |x| == if e > f && DigitsEnd(s, d, 10) > d then DigitsEnd(s, d, 10) else f
    ensures x == [] && Delimits(Ch(s, f)) ==> !FloatMark(Ch(s, f))
  {
    hide DigitsEnd;
    var e := if Ch(s, f) == 0x65 || Ch(s, f) == 0x45 then f + 1 else f;
    var d := if e > f && (Ch(s, e) == PLUS || Ch(s, e) == MINUS) then e + 1 else e;
    if e > f && DigitsEnd(s, d, 10) > d {
      x := s[f..DigitsEnd(s, d, 10)];
      DigitsAre(s, d);
      AllDigits(s, d);
      assert x[d - f..] == s[d..DigitsEnd(s, d, 10)];
    } else {
      x := [];
    }
  }

  lemma NumberSpelled(s: Bytes, i: nat) returns (t: Spelling)
    requires i < |s| && (s[i] == PLUS || s[i] == MINUS || IsDigit(s[i], 10)) && NumberAt(s, i).Parsed?
    requires Delimits(Ch(s, NumberAt(s, i).end))
    ensures t.Number? && Ok(t) && Follows(s, i, Render(t)) && i + |Render(t)| == NumberAt(s, i).end
  {
    hide DigitsEnd, ExponentOk, FractionOk, Decimal, Delimits, FloatEnd, Strtoll, Follows, FloatMark;
    var e := Strtoll(s, i).1;
    var sign, digits := SignSpelled(s, i);
    var f, x := [], [];
    NoFraction();
    if FloatMark(Ch(s, e)) { f, x := TailSpelled(s, e); } else { NothingFollows(s, e); }
    t := Number(sign, digits, f, x);
    FollowsJoin(s, i, sign + digits, f + x);
  }

  lemma NothingFollows(s: Bytes, e: nat)
    requires e <= |s|
    ensures Follows(s, e, [] + [])
  {}

  lemma SignSpelled(s: Bytes, i: nat) returns (sign: Bytes, digits: Bytes)
    requires i < |s| && Strtoll(s, i).1 > i
    ensures SignOk(sign) && digits != [] && Decimal(digits) && Follows(s, i, sign + digits)
    ensures i + |sign| + |digits| == Strtoll(s, i).1
  {
    hide DigitsEnd, Decimal, NatOf;
    var j := if s[i] == PLUS || s[i] == MINUS then i + 1 else i;
    var e := Strtoll(s, i).1;
    sign, digits := s[i..j], s[j..e];
    DigitsAre(s, j);
    FollowsJoin(s, i, sign, digits);
    assert sign == [] || sign == [s[i]];
  }

  lemma TailSpelled(s: Bytes, e: nat) returns (f: Bytes, x: Bytes)
    requires e <= |s| && FloatMark(Ch(s, e)) && Delimits(Ch(s, FloatEnd(s, e)))
    ensures FractionOk(f) && ExponentOk(x) && Follows(s, e, f + x) && e + |f + x| == FloatEnd(s, e)
  {
    hide DigitsEnd, ExponentOk, FractionOk, Follows;
    f := FractionSpelled(s, e);
    x := ExponentSpelled(s, e + |f|);
    FollowsJoin(s, e, f, x);
  }

  lemma NoFraction()
    ensures FractionOk([]) && ExponentOk([])
  {}

  lemma LiteralSpelled(s: Bytes, i: nat) returns (t: Spelling)
    requires LiteralAt(s, i).Parsed?
    ensures (t.NullWord? || t.BoolWord?) && Follows(s, i, Render(t))
    ensures LiteralAt(s, i) == Parsed(Meaning(t), i + |Render(t)|)
  {
    t := if LiteralAt(s, i).value == Null then NullWord else BoolWord(LiteralAt(s, i).value.b);
  }

  lemma {:induction false} ValueSpelled(s: Bytes, i: nat) returns (t: Spelling)
    requires i <= |s| && ValueAt(s, i).Parsed? && Delimits(Ch(s, ValueAt(s, i).end))
    ensures Ok(t) && Follows(s, SkipWs(s, i), Render(t))
    ensures ValueAt(s, i) == Parsed(Meaning(t), SkipWs(s, i) + |Render(t)|)
    decreases |s| - i, 0
  {
    hide ItemsFrom, PropertiesFrom, StringFrom, NumberAt, LiteralAt, Delimits, ItemsText, MembersText, LettersText,
      LettersMean, Values, Properties, StringOk;
    var j := SkipWs(s, i);
    SkipTwice(s, i);
    ValueAfterBlanks(s, i);
    Turns(s, j);
    if s[j] == OPEN_ARRAY {
      var items, comma, end := ItemsSpelled(s, j + 1, []);
      t := ArrayOf(items, comma, end);
      OpenJoined(s, j, 0x5b, ItemsText(items, comma, end));
      assert [] + Values(items) == Values(items);
    } else if s[j] == OPEN_OBJECT {
      var members, comma, end := MembersSpelled(s, j + 1, []);
      t := ObjectOf(members, comma, end);
      OpenJoined(s, j, 0x7b, MembersText(members, comma, end));
    } else if s[j] == QUOTE {
      var letters := LettersSpelled(s, j + 1, []);
      t := StringWord(letters);
      OpenJoined(s, j, 0x22, LettersText(letters));
      assert [] + LettersMean(letters) == LettersMean(letters);
    } else if s[j] == PLUS || s[j] == MINUS || IsDigit(s[j], 10) {
      t := NumberSpelled(s, j);
      NumberRead(s, j, t);
    } else {
      t := LiteralSpelled(s, j);
    }
  }

  lemma OpenJoined(s: Bytes, i: nat, open: Byte, rest: Bytes)
    requires i < |s| && s[i] == open && Follows(s, i + 1, rest)
    ensures Follows(s, i, [open] + rest)
  {
    assert s[i..i + 1] == [open];
    FollowsJoin(s, i, [open], rest);
  }

  /** White space, a value, white space, and a comma or the end. */
  lemma {:induction false} ItemSpelled(s: Bytes, i: nat, close: Byte) returns (it: Item)
    requires i <= |s| && ValueAt(s, SkipWs(s, i)).Parsed? && (close == 0x5d || close == 0x7d)
    requires After(s, ValueAt(s, SkipWs(s, i)).end, close).Parsed?
    ensures Blank(it.before) && Ok(it.value) && Blank(it.behind) && SkipWs(s, i) == i + |it.before|
    ensures Follows(s, i, it.before + (Render(it.value) + it.behind))
    ensures ValueAt(s, SkipWs(s, i)) == Parsed(Meaning(it.value), i + |it.before| + |Render(it.value)|)
    ensures var c := i + |it.before| + |Render(it.value)| + |it.behind|;
            var after := After(s, ValueAt(s, SkipWs(s, i)).end, close);
            c < |s| && after.end == c + 1 && s[c] == if after.value then 0x2c else close
    decreases |s| - i, 1
  {
    hide ValueAt, Render, Ok, Meaning, SkipWs, Blank, Delimits, Follows, IsBlank;
    var j := SkipWs(s, i);
    var k := ValueAt(s, j).end;
    var e := SkipWs(s, k);
    BlanksAre(s, i);
    BlanksAre(s, k);
    SkipTwice(s, i);
    AfterDelimits(s, k, close);
    var t := ValueSpelled(s, j);
    it := Item(s[i..j], t, s[k..e]);
    FollowsJoin(s, j, Render(t), it.behind);
    FollowsJoin(s, i, it.before, Render(t) + it.behind);
  }

  lemma AfterDelimits(s: Bytes, k: nat, close: Byte)
    requires k <= |s| && (close == 0x5d || close == 0x7d) && After(s, k, close).Parsed?
    ensures var e, after := SkipWs(s, k), After(s, k, close);
            e < |s| && after.end == e + 1 && s[e] == if after.value then 0x2c else close
    ensures Delimits(Ch(s, k))
  {}

  /** An item and its comma in front of the others. */
  lemma ItemInFront(s: Bytes, i: nat, it: Item, c: nat, items: seq<Item>, comma: bool, end: Bytes)
    returns (items': seq<Item>, comma': bool)
    requires Blank(it.before) && Ok(it.value) && Blank(it.behind) && ItemsOk(items)
    requires Follows(s, i, it.before + (Render(it.value) + it.behind))
    requires c == i + |it.before| + |Render(it.value)| + |it.behind| && Ch(s, c) == 0x2c
    requires Follows(s, c + 1, ItemsText(items, comma, end))
    ensures ItemsOk(items') && items' != [] && Follows(s, i, ItemsText(items', comma', end))
    ensures |ItemsText(items', comma', end)| == c + 1 - i + |ItemsText(items, comma, end)|
    ensures Values(items') == [Meaning(it.value)] + Values(items)
  {
    hide Render, Ok, Meaning, Blank, Follows;
    items', comma' := [it] + items, items == [] || comma;
    assert items'[1..] == items;
    SameItems(items, comma, comma', end);
    PieceJoined(s, i, it, true, 0x5d, ItemsText(items, comma, end));
  }

  lemma LastItem(s: Bytes, i: nat, it: Item, c: nat)
    requires Blank(it.before) && Ok(it.value) && Blank(it.behind)
    requires Follows(s, i, it.before + (Render(it.value) + it.behind))
    requires c == i + |it.before| + |Render(it.value)| + |it.behind| && Ch(s, c) == 0x5d
    ensures ItemsOk([it]) && Follows(s, i, ItemsText([it], false, []))
    ensures |ItemsText([it], false, [])| == c + 1 - i && Values([it]) == [Meaning(it.value)]
  {
    hide Render, Ok, Meaning, Blank, Follows;
    assert [it][1..] == [] && [] + [0x5d] == [0x5d];
    PieceJoined(s, i, it, false, 0x5d, [0x5d]);
  }

  lemma {:induction false} ItemsSpelled(s: Bytes, i: nat, acc: seq<Value>)
    returns (items: seq<Item>, comma: bool, end: Bytes)
    requires i <= |s| && ItemsFrom(s, i, acc).Parsed?
    ensures ItemsOk(items) && Blank(end) && (comma ==> items != []) && Follows(s, i, ItemsText(items, comma, end))
    ensures ItemsFrom(s, i, acc) == Parsed(Array(acc + Values(items)), i + |ItemsText(items, comma, end)|)
    decreases |s| - i, 3
  {
    hide ValueAt, ItemsFrom, Render, Ok, Meaning, After, ItemsOk, ItemsText, Values, Follows, SkipWs;
    ItemsIs(s, i, acc);
    var j := SkipWs(s, i);
    if Ch(s, j) == CLOSE_ARRAY {
      items, comma, end := [], false, s[i..j];
      EndSpelled(s, i, 0x5d);
      NoItemsAre(acc, end);
    } else {
      var it := ItemSpelled(s, i, 0x5d);
      var c := i + |it.before| + |Render(it.value)| + |it.behind|;
      if s[c] == COMMA {
        var items', comma', end' := ItemsSpelled(s, c + 1, acc + [Meaning(it.value)]);
        items, comma := ItemInFront(s, i, it, c, items', comma', end');
        end := end';
        Regroup(acc, [Meaning(it.value)], Values(items'));
      } else {
        items, comma, end := [it], false, [];
        LastItem(s, i, it, c);
      }
    }
  }

  lemma NoItemsAre(acc: seq<Value>, end: Bytes)
    ensures ItemsOk([]) && acc + Values([]) == acc && ItemsText([], false, end) == end + [0x5d]
  {}

  /** Without items, no comma is written. */
  lemma SameItems(items: seq<Item>, comma: bool, comma': bool, end: Bytes)
    requires comma' == (items == [] || comma)
    ensures ItemsText(items, comma', end) == ItemsText(items, comma, end)
  {}

  lemma EndSpelled(s: Bytes, i: nat, close: Byte)
    requires i <= |s| && Ch(s, SkipWs(s, i)) == close && close != 0
    ensures Blank(s[i..SkipWs(s, i)]) && Follows(s, i, s[i..SkipWs(s, i)] + [close])
  {
    var j := SkipWs(s, i);
    BlanksAre(s, i);
    assert s[j..j + 1] == [close];
    FollowsJoin(s, i, s[i..j], [close]);
  }

  lemma PieceJoined(s: Bytes, i: nat, it: Item, more: bool, close: Byte, rest: Bytes)
    requires Follows(s, i, it.before + (Render(it.value) + it.behind)) && close != 0
    requires var c := i + |it.before| + |Render(it.value)| + |it.behind|;
             if more then Ch(s, c) == 0x2c && Follows(s, c + 1, rest) else Ch(s, c) == close && rest == [close]
    ensures Follows(s, i, it.before + (Render(it.value) + (it.behind + (CommaIf(more) + rest))))
  {
    hide Render, Follows;
    var c := i + |it.before| + |Render(it.value)| + |it.behind|;
    var tail := CommaIf(more) + rest;
    if more { OpenJoined(s, c, 0x2c, rest); } else { CloseFollows(s, c, close); assert [] + rest == rest; }
    FollowsJoin(s, i, it.before + (Render(it.value) + it.behind), tail);
    Regroup(it.before, Render(it.value) + it.behind, tail);
    Regroup(Render(it.value), it.behind, tail);
  }

  /** A member and its comma in front of the others. */
  lemma MemberInFront(s: Bytes, i: nat, m: Member, c: nat, members: seq<Member>, comma: bool, end: Bytes,
                      props: seq<Property>)
    returns (members': seq<Member>, comma': bool)
    requires MemberOk(m) && MemberAt(s, i, m, c) && MembersOk(members) && Ch(s, c) == 0x2c
    requires Follows(s, c + 1, MembersText(members, comma, end))
    ensures MembersOk(members') && members' != [] && Follows(s, i, MembersText(members', comma', end))
    ensures |MembersText(members', comma', end)| == c + 1 - i + |MembersText(members, comma, end)|
    ensures Properties(props, members') ==
            Properties(SetProperty(props, LettersMean(m.key), Meaning(m.item.value)), members)
  {
    hide Meaning, LettersMean, SetProperty, MemberThen, MemberAt, Follows;
    members', comma' := [m] + members, members == [] || comma;
    assert members'[1..] == members;
    SameMembers(members, comma, comma', end);
    MemberJoined(s, i, c, m, true, MembersText(members, comma, end));
  }

  lemma LastMember(s: Bytes, i: nat, m: Member, c: nat, props: seq<Property>)
    requires MemberOk(m) && MemberAt(s, i, m, c) && Ch(s, c) == 0x7d
    ensures MembersOk([m]) && Follows(s, i, MembersText([m], false, []))
    ensures |MembersText([m], false, [])| == c + 1 - i
    ensures Properties(props, [m]) == SetProperty(props, LettersMean(m.key), Meaning(m.item.value))
  {
    hide Meaning, LettersMean, SetProperty, MemberThen, MemberAt, Follows;
    assert [m][1..] == [] && [] + [0x7d] == [0x7d];
    MemberJoined(s, i, c, m, false, [0x7d]);
  }

  lemma {:induction false} MembersSpelled(s: Bytes, i: nat, props: seq<Property>)
    returns (members: seq<Member>, comma: bool, end: Bytes)
    requires i <= |s| && PropertiesFrom(s, i, props).Parsed?
    ensures MembersOk(members) && Blank(end) && (comma ==> members != [])
    ensures Follows(s, i, MembersText(members, comma, end))
    ensures PropertiesFrom(s, i, props) ==
            Parsed(Object(Properties(props, members)), i + |MembersText(members, comma, end)|)
    decreases |s| - i, 3
  {
    hide PropertyAt, PropertiesFrom, Meaning, After, LettersMean, SetProperty, MemberThen, MemberAt, MembersOk,
      MembersText, Properties, Follows, SkipWs;
    PropertiesIs(s, i, props);
    var j := SkipWs(s, i);
    if Ch(s, j) == CLOSE_OBJECT {
      members, comma, end := [], false, s[i..j];
      EndSpelled(s, i, 0x7d);
      NoMembersAre(props, end);
    } else {
      var m, c := MemberSpelled(s, i);
      InText(s, i, m, c);
      if s[c] == COMMA {
        var props' := SetProperty(props, LettersMean(m.key), Meaning(m.item.value));
        var members', comma', end' := MembersSpelled(s, c + 1, props');
        members, comma := MemberInFront(s, i, m, c, members', comma', end', props);
        end := end';
      } else {
        members, comma, end := [m], false, [];
        LastMember(s, i, m, c, props);
      }
    }
  }

  lemma InText(s: Bytes, i: nat, m: Member, c: nat)
    requires MemberAt(s, i, m, c)
    ensures i < c < |s|
  {}

  lemma NoMembersAre(props: seq<Property>, end: Bytes)
    ensures MembersOk([]) && Properties(props, []) == props && MembersText([], false, end) == end + [0x7d]
  {}

  lemma SameMembers(members: seq<Member>, comma: bool, comma': bool, end: Bytes)
    requires comma' == (members == [] || comma)
    ensures MembersText(members, comma', end) == MembersText(members, comma, end)
  {
    hide MemberThen;
  }

  /** A member and the white space behind it. */
  ghost predicate MemberAt(s: Bytes, i: nat, m: Member, c: nat) {
    var value := m.item.before + (Render(m.item.value) + m.item.behind);
    && c < |s| && Follows(s, i, m.before + ([m.open] + (LettersText(m.key) + (m.mid + ([0x3a] + value)))))
    && c == i + |m.before| + 1 + |LettersText(m.key)| + |m.mid| + 1 + |value|
  }

  /** The text of a member in one piece. */
  lemma MemberGathered(s: Bytes, i: nat, m: Member, k: nat, c: nat)
    requires k == i + |m.before| + 1 + |LettersText(m.key)| && c == k + |m.mid| + 1
    requires Follows(s, i, m.before) && i + |m.before| < |s| && s[i + |m.before|] == m.open
    requires Follows(s, i + |m.before| + 1, LettersText(m.key)) && Follows(s, k, m.mid)
    requires c <= |s| && s[c - 1] == 0x3a
    requires var value := m.item.before + (Render(m.item.value) + m.item.behind);
             Follows(s, c, value) && c + |value| < |s|
    ensures MemberAt(s, i, m, c + |m.item.before| + |Render(m.item.value)| + |m.item.behind|)
  {
    hide Render, LettersText, Follows;
    var j, value := i + |m.before|, m.item.before + (Render(m.item.value) + m.item.behind);
    OpenJoined(s, c - 1, 0x3a, value);
    FollowsJoin(s, k, m.mid, [0x3a] + value);
    FollowsJoin(s, j + 1, LettersText(m.key), m.mid + ([0x3a] + value));
    OpenJoined(s, j, m.open, LettersText(m.key) + (m.mid + ([0x3a] + value)));
    FollowsJoin(s, i, m.before, [m.open] + (LettersText(m.key) + (m.mid + ([0x3a] + value))));
  }

  /** A key, and where its colon is. */
  lemma KeySpelled(s: Bytes, j: nat) returns (key: seq<Letter>, k: nat, colon: nat)
    requires j <= |s| && PropertyAt(s, j).Parsed?
    ensures StringOk(key) && k == j + 1 + |LettersText(key)| <= |s| && colon == SkipWs(s, k) < |s| && s[colon] == 0x3a
    ensures j < |s| && Follows(s, j + 1, LettersText(key)) && Blank(s[k..colon]) && Follows(s, k, s[k..colon])
    ensures ValueAt(s, SkipWs(s, colon + 1)).Parsed?
    ensures PropertyAt(s, j) == Parsed(Property(LettersMean(key), ValueAt(s, SkipWs(s, colon + 1)).value),
                                       ValueAt(s, SkipWs(s, colon + 1)).end)
  {
    hide ValueAt, StringFrom, LettersText, LettersMean, StringOk, Follows, SkipWs, Blank;
    PropertyIs(s, j);
    key := LettersSpelled(s, j + 1, []);
    assert [] + LettersMean(key) == LettersMean(key);
    k := j + 1 + |LettersText(key)|;
    FollowsEnds(s, j + 1, LettersText(key));
    colon := SkipWs(s, k);
    BlanksAre(s, k);
  }

  lemma {:induction false} MemberSpelled(s: Bytes, i: nat) returns (m: Member, c: nat)
    requires i <= |s| && PropertyAt(s, SkipWs(s, i)).Parsed? && Ch(s, SkipWs(s, i)) != CLOSE_OBJECT
    requires After(s, PropertyAt(s, SkipWs(s, i)).end, 0x7d).Parsed?
    ensures MemberOk(m) && MemberAt(s, i, m, c)
    ensures var p := PropertyAt(s, SkipWs(s, i));
            var after := After(s, p.end, 0x7d);
            && p == Parsed(Property(LettersMean(m.key), Meaning(m.item.value)), c - |m.item.behind|)
            && after.end == c + 1 && s[c] == if after.value then 0x2c else 0x7d
    decreases |s| - i, 2
  {
    hide ValueAt, PropertyAt, Render, Ok, Meaning, LettersText, LettersMean, StringOk, Follows, SkipWs, Blank, After,
      IsBlank, MemberAt;
    var j := SkipWs(s, i);
    BlanksAre(s, i);
    var key, k, colon := KeySpelled(s, j);
    var it := ItemSpelled(s, colon + 1, 0x7d);
    m := Member(s[i..j], s[j], key, s[k..colon], it);
    c := colon + 1 + |it.before| + |Render(it.value)| + |it.behind|;
    MemberGathered(s, i, m, k, colon + 1);
  }

  lemma MemberJoined(s: Bytes, i: nat, c: nat, m: Member, more: bool, rest: Bytes)
    requires MemberAt(s, i, m, c)
    requires if more then Ch(s, c) == 0x2c && Follows(s, c + 1, rest) else Ch(s, c) == 0x7d && rest == [0x7d]
    ensures Follows(s, i, MemberThen(m, more, rest))
    ensures |MemberThen(m, more, rest)| == c - i + |CommaIf(more)| + |rest|
  {
    hide Render, LettersText, Follows;
    var tail := CommaIf(more) + rest;
    var value := m.item.before + (Render(m.item.value) + m.item.behind);
    var front := m.before + ([m.open] + (LettersText(m.key) + (m.mid + ([0x3a] + value))));
    if more { OpenJoined(s, c, 0x2c, rest); } else { CloseFollows(s, c, 0x7d); assert [] + rest == rest; }
    FollowsJoin(s, i, front, tail);
    Regroup(m.before, [m.open] + (LettersText(m.key) + (m.mid + ([0x3a] + value))), tail);
    Regroup([m.open], LettersText(m.key) + (m.mid + ([0x3a] + value)), tail);
    Regroup(LettersText(m.key), m.mid + ([0x3a] + value), tail);
    Regroup(m.mid, [0x3a] + value, tail);
    Regroup([0x3a], value, tail);
    Regroup(m.item.before, Render(m.item.value) + m.item.behind, tail);
    Regroup(Render(m.item.value), m.item.behind, tail);
    assert front + tail == MemberThen(m, more, rest);
  }

  lemma CloseFollows(s: Bytes, c: nat, close: Byte)
    requires c < |s| && s[c] == close
    ensures Follows(s, c, [close])
  {
    assert s[c..c + 1] == [close];
  }

  // ----- Documents -----

  /** A document: a value with white space around it. */
  ghost predicate Spells(s: Bytes, before: Bytes, t: Spelling, behind: Bytes) {
    Blank(before) && Ok(t) && Blank(behind) && s == before + Render(t) + behind
  }

  lemma DocumentRead(s: Bytes, before: Bytes, t: Spelling, behind: Bytes)
    requires Spells(s, before, t, behind)
    ensures Document(s) == Some(Meaning(t))
  {
    hide ValueAt, Render, Meaning, Ok, SkipWs, Follows, Blank, IsBlank, Delimits;
    var j, e := |before|, |before| + |Render(t)|;
    Regroup(before, Render(t), behind);
    WholeFollows(s);
    RenderStarts(t);
    BlankRead(s, 0, before, Render(t) + behind);
    FollowsBoth(s, j, Render(t), behind);
    EndRead(s, e, behind);
    ValueRead(s, j, t);
    ValueAfterBlanks(s, 0);
  }

  lemma WholeFollows(s: Bytes)
    ensures Follows(s, 0, s)
  {
    assert s[0..|s|] == s;
  }

  lemma EndRead(s: Bytes, e: nat, behind: Bytes)
    requires Follows(s, e, behind) && e + |behind| == |s| && Blank(behind)
    ensures SkipWs(s, e) == |s| && Delimits(Ch(s, e))
  {
    forall k | e <= k < |s| ensures IsBlank(s[k]) { FollowsAt(s, e, behind, k - e); }
    BlanksSkipped(s, e, |s|);
  }

  lemma DocumentSpelled(s: Bytes) returns (before: Bytes, t: Spelling, behind: Bytes)
    requires Document(s).Some?
    ensures Spells(s, before, t, behind)
  {
    hide ValueAt, Render, Meaning, Ok;
    var j, e := SkipWs(s, 0), ValueAt(s, 0).end;
    EndDelimits(s, e);
    t := ValueSpelled(s, 0);
    before, behind := s[..j], s[e..];
    BlanksAre(s, 0);
    BlanksAre(s, e);
    assert s[j..e] == Render(t) && s[0..j] == s[..j] && s[e..|s|] == s[e..];
  }

  lemma EndDelimits(s: Bytes, e: nat)
    requires e <= |s| && SkipWs(s, e) == |s|
    ensures Delimits(Ch(s, e))
  {}

  /** The parser accepts the texts that spell a value, with white space around it, and gives that value. */
  lemma DocumentIff(s: Bytes, v: Value)
    ensures Document(s) == Some(v) <==>
            exists before, t, behind :: Spells(s, before, t, behind) && Meaning(t) == v
  {
    hide ValueAt, Render, Meaning, Ok, SkipWs;
    if Document(s) == Some(v) {
      var before, t, behind := DocumentSpelled(s);
      DocumentRead(s, before, t, behind);
    }
    forall before, t, behind | Spells(s, before, t, behind) ensures Document(s) == Some(Meaning(t)) {
      DocumentRead(s, before, t, behind);
    }
  }

  // ----- White space does not matter -----

  /** The same without its white space. */
  function Tight(t: Spelling): Spelling
    decreases t
  {
    match t
    case ArrayOf(items, comma, _) => ArrayOf(TightItems(items), comma, [])
    case ObjectOf(members, comma, _) => ObjectOf(TightMembers(members), comma, [])
    case _ => t
  }

  function TightItems(items: seq<Item>): (r: seq<Item>)
    ensures |r| == |items|
    decreases items
  {
    if items == [] then [] else [Item([], Tight(items[0].value), [])] + TightItems(items[1..])
  }

  function TightMembers(members: seq<Member>): (r: seq<Member>)
    ensures |r| == |members|
    decreases members
  {
    if members == [] then []
    else
      var m := members[0];
      [Member([], m.open, m.key, [], Item([], Tight(m.item.value), []))] + TightMembers(members[1..])
  }

  lemma {:induction false} TightMeans(t: Spelling)
    requires Ok(t)
    ensures Ok(Tight(t)) && Meaning(Tight(t)) == Meaning(t)
    decreases t
  {
    match t
    case ArrayOf(items, _, _) => TightItemsMean(items);
    case ObjectOf(members, _, _) => TightMembersMean(members, []);
    case _ =>
  }

  lemma {:induction false} TightItemsMean(items: seq<Item>)
    requires ItemsOk(items)
    ensures ItemsOk(TightItems(items)) && Values(TightItems(items)) == Values(items)
    decreases items
  {
    if items != [] {
      TightMeans(items[0].value);
      TightItemsMean(items[1..]);
      assert TightItems(items)[1..] == TightItems(items[1..]);
    }
  }

  lemma {:induction false} TightMembersMean(members: seq<Member>, props: seq<Property>)
    requires MembersOk(members)
    ensures MembersOk(TightMembers(members))
    ensures Properties(props, TightMembers(members)) == Properties(props, members)
    decreases members
  {
    if members != [] {
      var m := members[0];
      TightMeans(m.item.value);
      TightMembersMean(members[1..], SetProperty(props, LettersMean(m.key), Meaning(m.item.value)));
      assert TightMembers(members)[1..] == TightMembers(members[1..]);
    }
  }
}
