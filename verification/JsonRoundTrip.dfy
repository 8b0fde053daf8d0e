/** Parsing undoes serializing, and `\u` escapes decode to UTF-8 (json.c). */
module JsonRoundTrip {
  import opened Common
  import opened Texts
  import opened Json
  import opened JsonParser
  import opened JsonGrammar

  // ---------------------------------------------------------------------
  // What the serializer prints, as a spelling without white space

  /** `"` and `\` are escaped, and the control characters, by name where they have one. */
  function LetterFor(b: Byte): Letter {
    if b == 0x22 || b == 0x5c then Named(b)
    else if b == 0x08 then Named(0x62)
    else if b == 0x0c then Named(0x66)
    else if b == 0x0a then Named(0x6e)
    else if b == 0x0d then Named(0x72)
    else if b == 0x09 then Named(0x74)
    else if b < 0x10 then Unit([0x30, 0x30, 0x30, if b < 0x0a then 0x30 + b else 0x57 + b])
    else if b < 0x20 then Unit([0x30, 0x30, 0x31, if b < 0x1a then 0x20 + b else 0x47 + b])
    else Raw(b)
  }

  function LettersFor(s: Bytes, k: nat): seq<Letter>
    requires k <= |s|
    decreases |s| - k
  {
    if k == |s| then [] else [LetterFor(s[k])] + LettersFor(s, k + 1)
  }

  ghost function Plain(v: Value): Spelling
    requires Serializable(v)
    decreases v
  {
    match v
    case Null => NullWord
    case Bool(b) => BoolWord(b)
    case Integer(n) => Number(if n < 0 then [0x2d] else [], Digits(if n < 0 then -n else n, 10), [], [])
    case String(s) => StringWord(LettersFor(s, 0))
    case Array(items) => ArrayOf(PlainItems(items, 0), false, [])
    case Object(props) => ObjectOf(PlainMembers(props, 0), false, [])
  }

  ghost function PlainItems(items: seq<Value>, k: nat): (r: seq<Item>)
    requires k <= |items| && forall i :: 0 <= i < |items| ==> Serializable(items[i])
    ensures |r| == |items| - k
    decreases items, |items| - k
  {
    if k == |items| then [] else [Item([], Plain(items[k]), [])] + PlainItems(items, k + 1)
  }

  ghost function PlainMembers(props: seq<Property>, k: nat): (r: seq<Member>)
    requires k <= |props| && forall i :: 0 <= i < |props| ==> Serializable(props[i].value)
    ensures |r| == |props| - k
    decreases props, |props| - k
  {
    if k == |props| then []
    else
      var p := props[k];
      [Member([], QUOTE, LettersFor(p.key, 0), [], Item([], Plain(p.value), []))] + PlainMembers(props, k + 1)
  }

  lemma LetterForIs(b: Byte)
    ensures var l := LetterFor(b); LetterOk(l) && LetterText(l) == Escaped(b) && LetterMeans(l) == [b]
    ensures LetterFor(b).Unit? ==> !IsHigh(LetterFor(b).hex)
  {}

  lemma {:induction false} LettersForIs(s: Bytes, k: nat)
    requires k <= |s|
    ensures var ls := LettersFor(s, k); StringOk(ls) && LettersText(ls) == StringRest(s, k) && LettersMean(ls) == s[k..]
    decreases |s| - k
  {
    hide LetterFor, LetterText, Escaped, LetterMeans, LetterOk, IsHigh;
    if k < |s| {
      LetterForIs(s[k]);
      LettersForIs(s, k + 1);
      assert LettersFor(s, k)[1..] == LettersFor(s, k + 1) && s[k..] == [s[k]] + s[k + 1..];
    }
  }

  lemma DigitsAreDecimal(n: nat)
    ensures Digits(n, 10) != [] && Decimal(Digits(n, 10)) && DecimalOf(Digits(n, 10)) == n
  {
    hide Digits;
    DigitsAreDigits(n, 10);
    forall i | 0 <= i < |Digits(n, 10)| ensures 0x30 <= Digits(n, 10)[i] <= 0x39 {
      assert IsDigit(Digits(n, 10)[i], 10);
    }
    DigitsValue(n, 10);
    DecimalIs(Digits(n, 10));
  }

  /** The text of a value is its plain spelling, which means the value. */
  lemma {:induction false} PlainIs(v: Value)
    requires Serializable(v)
    ensures var t := Plain(v); Ok(t) && Tight(t) == t && Render(t) == Text(v) && Meaning(t) == v
    decreases v
  {
    hide Digits, LettersFor, LettersText, StringRest, LettersMean, StringOk, ItemsOk, MembersOk, TightItems,
      TightMembers, Values, Properties, ItemsText, MembersText, ArrayRest, ObjectRest;
    match v
    case Integer(n) => PlainIntegerIs(v);
    case String(s) => LettersForIs(s, 0);
    case Array(items) => PlainItemsAre(v, 0);
    case Object(props) => PlainMembersAre(v, 0);
    case _ =>
  }

  lemma PlainIntegerIs(v: Value)
    requires v.Integer? && Serializable(v)
    ensures var t := Plain(v); Ok(t) && Tight(t) == t && Render(t) == Text(v) && Meaning(t) == v
  {
    hide Digits, DecimalOf, Decimal;
    DigitsAreDecimal(if v.n < 0 then -v.n else v.n);
  }

  lemma NoBlanks(sep: Bytes, t: Bytes, more: Bytes, rest: Bytes)
    ensures (sep + t) + (more + rest) == sep + ([] + (t + ([] + (more + rest))))
  {}

  lemma NoBlanksInMember(sep: Bytes, key: Bytes, t: Bytes, more: Bytes, rest: Bytes)
    ensures (sep + ([0x22] + key) + [0x3a] + t) + (more + rest)
            == sep + ([] + ([0x22] + (key + ([] + ([0x3a] + ([] + (t + ([] + (more + rest)))))))))
  {}

  lemma ItemsTextIs(items: seq<Item>, it: Item, rest: seq<Item>)
    requires items == [it] + rest
    ensures ItemsText(items, false, []) ==
            it.before + (Render(it.value) + (it.behind + (CommaIf(rest != []) + ItemsText(rest, false, []))))
  {
    assert items[1..] == rest;
  }

  lemma MembersTextIs(members: seq<Member>, m: Member, rest: seq<Member>)
    requires members == [m] + rest
    ensures MembersText(members, false, []) == MemberThen(m, rest != [], MembersText(rest, false, []))
  {
    assert members[1..] == rest;
  }

  lemma ItemsAre(items: seq<Item>, it: Item, rest: seq<Item>)
    requires items == [it] + rest && ItemsOk(rest) && TightItems(rest) == rest
    requires Ok(it.value) && Tight(it.value) == it.value && it.before == [] && it.behind == []
    ensures ItemsOk(items) && TightItems(items) == items && Values(items) == [Meaning(it.value)] + Values(rest)
  {
    hide Ok, Tight, Meaning;
    assert items[1..] == rest;
  }

  lemma MembersAre(members: seq<Member>, m: Member, rest: seq<Member>, props: seq<Property>)
    requires members == [m] + rest && MembersOk(rest) && TightMembers(rest) == rest
    requires Ok(m.item.value) && Tight(m.item.value) == m.item.value && StringOk(m.key) && m.open == 0x22
    requires m.before == [] && m.mid == [] && m.item.before == [] && m.item.behind == []
    ensures MembersOk(members) && TightMembers(members) == members
    ensures Properties(props, members) ==
            Properties(SetProperty(props, LettersMean(m.key), Meaning(m.item.value)), rest)
  {
    hide Ok, Tight, Meaning, StringOk, LettersMean, SetProperty;
    assert members[1..] == rest;
  }

  lemma {:induction false} PlainItemsAre(v: Value, k: nat)
    requires v.Array? && Serializable(v) && k <= |v.items|
    ensures var ts := PlainItems(v.items, k);
            && ItemsOk(ts) && TightItems(ts) == ts && Values(ts) == v.items[k..]
            && ArrayRest(v, k) == CommaIf(0 < k < |v.items|) + ItemsText(ts, false, [])
    decreases v.items, |v.items| - k
  {
    hide Text, Render, Plain, Meaning, Ok, Tight, ItemsText, ItemsOk, TightItems, Values;
    if k == |v.items| {
      NoItems(v);
    } else {
      var it, rest := Item([], Plain(v.items[k]), []), PlainItems(v.items, k + 1);
      PlainIs(v.items[k]);
      PlainItemsAre(v, k + 1);
      ItemsAre([it] + rest, it, rest);
      ItemsTextIs([it] + rest, it, rest);
      NoBlanks(Separator(k), Text(v.items[k]), CommaIf(rest != []), ItemsText(rest, false, []));
    }
  }

  lemma NoItems(v: Value)
    requires v.Array?
    ensures ItemsOk([]) && TightItems([]) == [] && Values([]) == [] && v.items[|v.items|..] == []
    ensures ArrayRest(v, |v.items|) == CommaIf(false) + ItemsText([], false, [])
  {}

  lemma NoMembers(v: Value)
    requires v.Object?
    ensures MembersOk([]) && TightMembers([]) == [] && Properties(v.props, []) == v.props
    ensures v.props[..|v.props|] == v.props
    ensures ObjectRest(v, |v.props|) == CommaIf(false) + MembersText([], false, [])
  {}

  lemma {:induction false} PlainMembersAre(v: Value, k: nat)
    requires v.Object? && Serializable(v) && k <= |v.props|
    ensures var ts := PlainMembers(v.props, k);
            && MembersOk(ts) && TightMembers(ts) == ts && Properties(v.props[..k], ts) == v.props
            && ObjectRest(v, k) == CommaIf(0 < k < |v.props|) + MembersText(ts, false, [])
    decreases v.props, |v.props| - k
  {
    hide Text, Render, Plain, Meaning, Ok, Tight, LettersFor, LettersText, LettersMean, StringOk, StringRest,
      MembersText, MembersOk, TightMembers, Properties, SetProperty;
    if k == |v.props| {
      NoMembers(v);
    } else {
      var p, rest := v.props[k], PlainMembers(v.props, k + 1);
      var m := Member([], 0x22, LettersFor(p.key, 0), [], Item([], Plain(p.value), []));
      LettersForIs(p.key, 0);
      PlainIs(p.value);
      PlainMembersAre(v, k + 1);
      assert p.key[0..] == p.key;
      MembersAre([m] + rest, m, rest, v.props[..k]);
      SetPropertyNew(v.props[..k], p.key, p.value);
      assert v.props[..k + 1] == v.props[..k] + [p];
      MembersTextIs([m] + rest, m, rest);
      NoBlanksInMember(Separator(k), StringRest(p.key, 0), Text(p.value), CommaIf(rest != []),
                       MembersText(rest, false, []));
    }
  }

  /** Reading back what was printed gives the same value, properties in the same order. */
  lemma RoundTrip(v: Value)
    requires Serializable(v)
    ensures Document(Text(v)) == Some(v)
  {
    PlainIs(v);
    assert [] + Text(v) + [] == Text(v);
    DocumentRead(Text(v), [], Plain(v), []);
  }

  /** So does reading a text of the value with any white space between its tokens and around it. */
  lemma SpacedBack(v: Value, t: Spelling, before: Bytes, behind: Bytes)
    requires Serializable(v) && Blank(before) && Ok(t) && Blank(behind) && Tight(t) == Plain(v)
    ensures Document(before + Render(t) + behind) == Some(v)
  {
    PlainIs(v);
    TightMeans(t);
    DocumentRead(before + Render(t) + behind, before, t, behind);
  }

  /** The escapes that the serializer prints read back as the bytes they were printed for. */
  lemma StringBack(s: Bytes, i: nat, acc: Bytes, body: Bytes, k: nat)
    requires k <= |body| && Follows(s, i, StringRest(body, k))
    ensures StringFrom(s, i, acc) == Parsed(acc + body[k..], i + |StringRest(body, k)|)
  {
    LettersForIs(body, k);
    LettersRead(s, i, acc, LettersFor(body, k));
  }

  /** Two serializable values never share their text. */
  lemma TextIsInjective(v: Value, w: Value)
    requires Serializable(v) && Serializable(w) && Text(v) == Text(w)
    ensures v == w
  {
    RoundTrip(v);
    RoundTrip(w);
  }

  /** The same with the C strings in memory, whatever follows the terminator. */
  method SerializeThenDeserialize(ser: Serializer, v: Value) returns (r: Option<Value>)
    requires Serializable(v)
    modifies ser
    ensures r == Some(v)
  {
    var text := ser.Serialize(v);
    ghost var n := |Text(v)|;
    TextHasNoNul(v);
    assert text[n] == text[..n + 1][n] == 0;
    assert text[..n] == text[..n + 1][..n] == Text(v);
    StrlenIs(text[..], n);
    assert text[..][..n] == text[..n];
    RoundTrip(v);
    ghost var created, destroyed, own;
    r, created, destroyed, own := Deserialize(text);
  }

  lemma {:induction false} StrlenIs(mem: Bytes, n: nat)
    requires n < |mem| && mem[n] == 0 && NoNul(mem[..n])
    ensures 0 in mem && Strlen(mem) == n
  {
    if Strlen(mem) < n {
      assert mem[Strlen(mem)] == mem[..n][Strlen(mem)];
    }
  }

  // ---------------------------------------------------------------------
  // Escapes of any character, in either case of hexadecimal digits

  function DigitIn(n: nat, upper: bool): Byte
    requires n < 16
  {
    if n < 10 then 0x30 + n else if upper then 0x37 + n else 0x57 + n
  }

  /** `upper` tells the case of each digit. */
  function UnitText(u: nat, upper: nat -> bool): Bytes
    requires u < 0x1_0000
  {
    [LOWER_U, DigitIn(u / 4096, upper(0)), DigitIn(u / 256 % 16, upper(1)), DigitIn(u / 16 % 16, upper(2)),
     DigitIn(u % 16, upper(3))]
  }

  /** The escape of a character as section 7 of RFC 8259 has it, after its backslash: one UTF-16 unit, or a pair. */
  function CharacterText(c: nat, upper: nat -> bool): Bytes
    requires c < 0x11_0000
  {
    if c < 0x1_0000 then UnitText(c, upper)
    else
      UnitText(0xd800 + (c - 0x1_0000) / 0x400, upper) + [BACKSLASH]
      + UnitText(0xdc00 + (c - 0x1_0000) % 0x400, (k: nat) => upper(k + 4))
  }

  /** The character that a well-formed UTF-8 sequence (RFC 3629, section 3) stands for. */
  function FromUtf8(b: Bytes): int
    requires b != []
  {
    var lead: int := b[0];
    if |b| == 1 && lead < 0x80 then lead
    else if (exists k :: 1 <= k < |b| && !(0x80 <= b[k] < 0xc0)) then -1
    else if |b| == 2 && 0xc0 <= lead < 0xe0 then AtLeast(0x80, (lead - 0xc0) * 64 + Tail(b, 1))
    else if |b| == 3 && 0xe0 <= lead < 0xf0 then
      AtLeast(0x800, (lead - 0xe0) * 4096 + Tail(b, 1) * 64 + Tail(b, 2))
    else if |b| == 4 && 0xf0 <= lead < 0xf8 then
      AtLeast(0x1_0000, (lead - 0xf0) * 262144 + Tail(b, 1) * 4096 + Tail(b, 2) * 64 + Tail(b, 3))
    else -1
  }

  /** The six bits of a continuation byte. */
  function Tail(b: Bytes, k: nat): int
    requires k < |b|
  {
    b[k] as int - 0x80
  }

  /** A sequence may not be longer than its character needs. */
  function AtLeast(least: int, c: int): int {
    if c < least then -1 else c
  }

  lemma NibbleOfDigit(n: nat, upper: bool)
    requires n < 16
    ensures Nibble(DigitIn(n, upper)) == Some(n)
  {}

  lemma FourDigitsSum(u: nat)
    requires u < 0x1_0000
    ensures 4096 * (u / 4096) + 256 * (u / 256 % 16) + 16 * (u / 16 % 16) + u % 16 == u
  {
    assert u / 16 / 16 == u / 256 && u / 256 / 16 == u / 4096;
  }

  lemma UnitBack(s: Bytes, i: nat, u: nat, upper: nat -> bool)
    requires u < 0x1_0000 && Follows(s, i, UnitText(u, upper))
    ensures Ch(s, i) == LOWER_U && HexValue(s, i + 1, 4) == Some(u)
  {
    var d0, d1, d2, d3 := u / 4096, u / 256 % 16, u / 16 % 16, u % 16;
    FourDigitsSum(u);
    UnitDigits(s, i, UnitText(u, upper), d0, d1, d2, d3, upper);
  }

  lemma UnitDigits(s: Bytes, i: nat, t: Bytes, d0: nat, d1: nat, d2: nat, d3: nat,
                   upper: nat -> bool)
    requires d0 < 16 && d1 < 16 && d2 < 16 && d3 < 16 && Follows(s, i, t)
    requires t == [LOWER_U, DigitIn(d0, upper(0)), DigitIn(d1, upper(1)), DigitIn(d2, upper(2)), DigitIn(d3, upper(3))]
    ensures Ch(s, i) == LOWER_U && HexValue(s, i + 1, 4) == Some(4096 * d0 + 256 * d1 + 16 * d2 + d3)
  {
    FollowsAt(s, i, t, 0);
    FollowsAt(s, i, t, 1);
    FollowsAt(s, i, t, 2);
    FollowsAt(s, i, t, 3);
    FollowsAt(s, i, t, 4);
    NibbleOfDigit(d0, upper(0));
    NibbleOfDigit(d1, upper(1));
    NibbleOfDigit(d2, upper(2));
    NibbleOfDigit(d3, upper(3));
    DigitsGive(s, i + 1, d0, d1, d2, d3);
  }

  /** UTF-8 loses nothing. */
  lemma Utf8Back(c: nat)
    requires c < 0x11_0000
    ensures FromUtf8(Utf8(c)) == c
  {
    if c < 0x80 {
    } else if c < 0x800 {
      TwoBytes(c);
    } else if c < 0x1_0000 {
      ThreeBytes(c);
    } else {
      FourBytes(c);
    }
  }

  lemma TwoBytes(c: nat)
    requires 0x80 <= c < 0x800
    ensures FromUtf8(Utf8(c)) == c
  {}

  lemma ThreeBytes(c: nat)
    requires 0x800 <= c < 0x1_0000
    ensures FromUtf8(Utf8(c)) == c
  {
    var b := Utf8(c);
    SixBits(c);
    assert c / 4096 % 64 == c / 4096 && c / 262144 == 0;
    assert Tail(b, 1) == c / 64 % 64 && Tail(b, 2) == c % 64;
  }

  lemma FourBytes(c: nat)
    requires 0x1_0000 <= c < 0x11_0000
    ensures FromUtf8(Utf8(c)) == c
  {
    var b := Utf8(c);
    SixBits(c);
    assert Tail(b, 1) == c / 4096 % 64 && Tail(b, 2) == c / 64 % 64 && Tail(b, 3) == c % 64;
  }

  lemma SixBits(c: nat)
    ensures c == c / 262144 * 262144 + c / 4096 % 64 * 4096 + c / 64 % 64 * 64 + c % 64
  {
    var q := c / 64;
    assert c / 4096 == q / 64 && c / 262144 == q / 64 / 64;
  }

  /** The escape of any character decodes to its UTF-8 form. */
  lemma EscapeIsUtf8(s: Bytes, i: nat, c: nat, upper: nat -> bool)
    requires c < 0x11_0000 && !(0xd800 <= c < 0xe000) && Follows(s, i, CharacterText(c, upper))
    ensures EscapeAt(s, i) == Parsed(Utf8(c), i + |CharacterText(c, upper)|)
  {
    if c < 0x1_0000 {
      UnitBack(s, i, c, upper);
    } else {
      var hi, lo := 0xd800 + (c - 0x1_0000) / 0x400, 0xdc00 + (c - 0x1_0000) % 0x400;
      PairBack(s, i, hi, lo, upper, (k: nat) => upper(k + 4));
      assert 0x1_0000 + (hi - 0xd800) * 0x400 + (lo - 0xdc00) == c;
    }
  }

  lemma PairBack(s: Bytes, i: nat, hi: nat, lo: nat, upper: nat -> bool, upper': nat -> bool)
    requires HighSurrogate(hi) && LowSurrogate(lo)
    requires Follows(s, i, UnitText(hi, upper) + [BACKSLASH] + UnitText(lo, upper'))
    ensures EscapeAt(s, i) == Parsed(Utf8(0x1_0000 + (hi - 0xd800) * 0x400 + (lo - 0xdc00)), i + 11)
  {
    var a, b := UnitText(hi, upper), UnitText(lo, upper');
    FollowsBoth(s, i, a + [BACKSLASH], b);
    FollowsBoth(s, i, a, [BACKSLASH]);
    FollowsAt(s, i + 5, [BACKSLASH], 0);
    UnitBack(s, i, hi, upper);
    UnitBack(s, i + 6, lo, upper');
  }
}
