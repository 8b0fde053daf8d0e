/**
 The text form of IP addresses (ipaddr.c), IPv6 as in section 2.2 of RFC 4291: what
 is printed reads back as the same address.
 */
module IpAddr {
  import opened Common
  import opened Texts

  const DOT: Byte := 0x2e
  const SLASH: Byte := 0x2f
  const COLON: Byte := 0x3a

  /** Sixteen bytes, of which an IPv4 address uses the last four. */
  datatype Address = Address(v6: bool, prefixlen: nat, data: Bytes)

  function Full(v6: bool): nat {
    if v6 then 128 else 32
  }

  ghost predicate WellFormed(a: Address) {
    && |a.data| == 16 && a.prefixlen <= Full(a.v6)
    && (!a.v6 ==> forall i :: 0 <= i < 12 ==> a.data[i] == 0)
  }

  // ----- Words -----

  type Words = seq<nat>

  function WordsOf(data: Bytes): Words
    requires |data| == 16
  {
    seq(8, i requires 0 <= i < 8 => 256 * data[2 * i] as nat + data[2 * i + 1] as nat)
  }

  ghost predicate WordsOk(ws: Words) {
    forall i :: 0 <= i < |ws| ==> ws[i] < 0x1_0000
  }

  function BytesOf(ws: Words): Bytes {
    seq(2 * |ws|, i requires 0 <= i < 2 * |ws| => (if i % 2 == 0 then ws[i / 2] / 256 else ws[i / 2]) % 256)
  }

  lemma WordsBack(data: Bytes)
    requires |data| == 16
    ensures BytesOf(WordsOf(data)) == data && WordsOk(WordsOf(data))
  {
    var ws := WordsOf(data);
    forall i | 0 <= i < 16 ensures BytesOf(ws)[i] == data[i] {
      var h, l := data[2 * (i / 2)], data[2 * (i / 2) + 1];
      assert ws[i / 2] == 256 * h as nat + l as nat;
    }
  }

  // ----- Printing -----

  /** The loop that looks for the gap, after `n` words. */
  function GapUpTo(ws: Words, n: nat): (r: (nat, nat))
    requires n <= |ws|
  {
    if n == 0 then (0, 0)
    else
      var (gap, len) := GapUpTo(ws, n - 1);
      if ws[n - 1] != 0 then (gap, len)
      else if n - 1 > gap + len then (n - 1, 1)
      else (gap, len + 1)
  }

  ghost predicate Zeros(ws: Words, from: nat, to: nat)
    requires from <= to <= |ws|
  {
    forall i :: from <= i < to ==> ws[i] == 0
  }

  /** The gap is the last run of zero words, and all of it; there is none only if no word is zero. */
  lemma {:induction false} GapIsLastRun(ws: Words, n: nat)
    requires n <= |ws|
    ensures var (gap, len) := GapUpTo(ws, n);
            && gap + len <= n && Zeros(ws, gap, gap + len)
            && (len > 0 && gap > 0 ==> ws[gap - 1] != 0)
            && (forall i :: gap + len <= i < n ==> ws[i] != 0)
            && (len == 0 ==> gap == 0)
  {
    if n > 0 { GapIsLastRun(ws, n - 1); }
  }

  function WordAt(needcolon: bool, w: nat): Bytes {
    (if needcolon then [COLON] else []) + Digits(w, 16)
  }

  /** The loop that prints the words, from the i-th on. */
  function PrintFrom(ws: Words, i: nat, needcolon: bool, gap: nat, len: nat): Bytes
    decreases |ws| - i
  {
    if i >= |ws| then []
    else if i == gap && len > 0 then [COLON, COLON] + PrintFrom(ws, i + len, false, gap, len)
    else WordAt(needcolon, ws[i]) + PrintFrom(ws, i + 1, true, gap, len)
  }

  function V6Text(ws: Words): Bytes {
    var (gap, len) := GapUpTo(ws, |ws|);
    PrintFrom(ws, 0, false, gap, len)
  }

  /** The last four bytes with dots between them, from the k-th on. */
  function V4Text(d: Bytes, k: nat): Bytes
    requires |d| == 16 && k < 4
    decreases 4 - k
  {
    if k == 3 then Digits(d[15], 10) else Digits(d[12 + k], 10) + ([DOT] + V4Text(d, k + 1))
  }

  function PrefixText(prefixlen: nat, full: nat): Bytes {
    if prefixlen < full then [SLASH] + Digits(prefixlen, 10) else []
  }

  function HostText(a: Address): Bytes
    requires |a.data| == 16
  {
    if a.v6 then V6Text(WordsOf(a.data)) else V4Text(a.data, 0)
  }

  function Text(a: Address): Bytes
    requires |a.data| == 16
  {
    HostText(a) + PrefixText(a.prefixlen, Full(a.v6))
  }

  /** toString. */
  method ToString(a: Address) returns (str: Bytes)
    requires |a.data| == 16
    ensures str == Text(a)
  {
    if a.v6 {
      var word := WordsOf(a.data);
      var gap, gaplen := FindGap(word);
      str := PrintWords(word, gap, gaplen);
    } else {
      str := V4Text(a.data, 0);
    }
    str := str + PrefixText(a.prefixlen, Full(a.v6));
  }

  method FindGap(word: Words) returns (gap: nat, gaplen: nat)
    ensures (gap, gaplen) == GapUpTo(word, |word|)
  {
    gap, gaplen := 0, 0;
    for i := 0 to |word|
      invariant GapUpTo(word, i) == (gap, gaplen)
    {
      if word[i] == 0 {
        if i > gap + gaplen { gap, gaplen := i, 1; } else { gaplen := gaplen + 1; }
      }
    }
  }

  method PrintWords(word: Words, gap: nat, gaplen: nat) returns (str: Bytes)
    ensures str == PrintFrom(word, 0, false, gap, gaplen)
  {
    hide Digits, WordAt;
    str := [];
    var needcolon, i := false, 0;
    while i < |word|
      invariant str + PrintFrom(word, i, needcolon, gap, gaplen) == PrintFrom(word, 0, false, gap, gaplen)
      decreases |word| - i
    {
      if i == gap && gaplen > 0 {
        PrintGap(word, needcolon, gap, gaplen);
        Regroup(str, [COLON, COLON], PrintFrom(word, i + gaplen, false, gap, gaplen));
        str := str + [COLON, COLON];
        needcolon := false;
        i := i + gaplen;
      } else {
        PrintOne(word, i, needcolon, gap, gaplen);
        Regroup(str, WordAt(needcolon, word[i]), PrintFrom(word, i + 1, true, gap, gaplen));
        str := str + WordAt(needcolon, word[i]);
        needcolon := true;
        i := i + 1;
      }
    }
  }

  // ----- Reading -----

  predicate IsSpace(b: Byte) {
    b == 0x20 || 0x09 <= b <= 0x0d
  }

  function SkipSpace(s: Bytes, i: nat): (r: nat)
    requires i <= |s|
    ensures i <= r <= |s|
    decreases |s| - i
  {
    if i < |s| && IsSpace(s[i]) then SkipSpace(s, i + 1) else i
  }

  /** strtol: white space, a sign, a hexadecimal prefix, digits; no digits, no progress. */
  function Strtol(s: Bytes, i: nat, base: nat): (r: (int, nat))
    requires i <= |s|
    ensures i <= r.1 <= |s|
  {
    var j := SkipSpace(s, i);
    var k := if Ch(s, j) == 0x2b || Ch(s, j) == 0x2d then j + 1 else j;
    var hex := base == 16 && Ch(s, k) == 0x30 && (Ch(s, k + 1) == 0x78 || Ch(s, k + 1) == 0x58)
               && IsDigit(Ch(s, k + 2), 16);
    var d := if hex then k + 2 else k;
    var e := DigitsEnd(s, d, base);
    if e == d then (0, i) else (if Ch(s, j) == 0x2d then -(NatOf(s[d..e], base) as int) else NatOf(s[d..e], base), e)
  }

  /** The k-th and following numbers of an IPv4 address, behind `acc`. */
  function V4From(s: Bytes, i: nat, k: nat, acc: Bytes): Option<Bytes>
    requires i <= |s| && k <= 4
    decreases 4 - k
  {
    if k == 4 then Some(acc)
    else
      var (n, e) := Strtol(s, i, 10);
      if e == i || (if k == 3 then e < |s| else Ch(s, e) != DOT) || n < 0 || n > 255 then None
      else V4From(s, if k < 3 then e + 1 else e, k + 1, acc + [n])
  }

  /** Words before the gap, zeros, and words behind it. */
  function Assemble(head: Words, tail: Words): Words {
    head + seq(if |head| + |tail| <= 8 then 8 - |head| - |tail| else 0, _ => 0) + tail
  }

  function V6From(s: Bytes, i: nat, head: Words, tail: Words, gap: bool): Option<Words>
    requires i <= |s|
    decreases |s| - i
  {
    if i == |s| then Some(Assemble(head, tail))
    else if !gap && s[i] == COLON && Ch(s, i + 1) == COLON then V6From(s, i + 2, head, tail, true)
    else
      var (w, e) := Strtol(s, i, 16);
      if e == i || (e < |s| && s[e] != COLON) || w < 0 || w > 0xffff || |head| + |tail| >= 8 then None
      else
        var j := if Ch(s, e) == COLON && Ch(s, e + 1) != COLON then e + 1 else e;
        if gap then V6From(s, j, head, tail + [w], gap) else V6From(s, j, head + [w], tail, gap)
  }

  function SlashAt(s: Bytes): (r: nat)
    ensures r <= |s| && (r < |s| ==> s[r] == SLASH) && forall i :: 0 <= i < r ==> s[i] != SLASH
  {
    if s == [] || s[0] == SLASH then 0 else 1 + SlashAt(s[1..])
  }

  /** The number behind the slash. */
  function PrefixOf(s: Bytes): Option<nat> {
    var (n, e) := Strtol(s, 0, 10);
    if e == 0 || e < |s| || n < 0 || n > 128 then None else Some(n)
  }

  function Host(s: Bytes): Option<(bool, Bytes)> {
    var v4 := V4From(s, 0, 0, []);
    if v4.Some? then Some((false, seq(12, _ => 0) + v4.value))
    else
      var v6 := V6From(s, 0, [], [], false);
      if v6.Some? then Some((true, BytesOf(v6.value))) else None
  }

  /** PSC_IpAddr_create. */
  function Create(s: Bytes): Option<Address> {
    if |s| < 2 || |s| > 43 then None
    else
      var at := SlashAt(s);
      var prefix := if at < |s| then PrefixOf(s[at + 1..]) else None;
      var host := Host(s[..at]);
      if (at < |s| && prefix.None?) || host.None? then None
      else
        var (v6, data) := host.value;
        var len := if at == |s| then Full(v6) else prefix.value;
        if len > Full(v6) then None else Some(Address(v6, len, data))
  }

  /** parsev4: four numbers in a row. */
  method ParseV4(s: Bytes) returns (r: Option<Bytes>)
    ensures r == V4From(s, 0, 0, [])
  {
    var v4dat: Bytes := [];
    var pos := 0;
    for k := 0 to 4
      invariant pos <= |s|
      invariant V4From(s, 0, 0, []) == V4From(s, pos, k, v4dat)
    {
      var (n, e) := Strtol(s, pos, 10);
      if e == pos || (if k == 3 then e < |s| else Ch(s, e) != DOT) || n < 0 || n > 255 { return None; }
      v4dat := v4dat + [n];
      pos := if k < 3 then e + 1 else e;
    }
    r := Some(v4dat);
  }

  /** parsev6: words go to the front, and behind the gap to the tail. */
  method ParseV6(s: Bytes) returns (r: Option<Words>)
    ensures r == V6From(s, 0, [], [], false)
  {
    hide Strtol, Assemble;
    var head: Words, tail: Words, gap := [], [], false;
    var pos := 0;
    while pos < |s|
      invariant pos <= |s| && V6From(s, 0, [], [], false) == V6From(s, pos, head, tail, gap)
    {
      if !gap && s[pos] == COLON && Ch(s, pos + 1) == COLON {
        pos, gap := pos + 2, true;
      } else {
        var (w, e) := Strtol(s, pos, 16);
        if e == pos || (e < |s| && s[e] != COLON) || w < 0 || w > 0xffff { return None; }
        if |head| + |tail| >= 8 { return None; }
        pos := e;
        if gap { tail := tail + [w]; } else { head := head + [w]; }
        if Ch(s, pos) == COLON && Ch(s, pos + 1) != COLON { pos := pos + 1; }
      }
    }
    r := Some(Assemble(head, tail));
  }

  // ----- Reading what was printed -----

  /** A numeral printed, and not followed by another digit or the letter of a hexadecimal prefix, is read back. */
  lemma StrtolBack(s: Bytes, i: nat, n: nat, base: nat)
    requires Base(base) && Follows(s, i, Digits(n, base))
    requires var c := Ch(s, i + |Digits(n, base)|); !IsDigit(c, base) && c != 0x78 && c != 0x58
    ensures i < i + |Digits(n, base)| <= |s| && Strtol(s, i, base) == (n, i + |Digits(n, base)|)
    ensures IsDigit(s[i], 16)
  {
    hide Digits, NatOf, DigitsEnd;
    DigitsFound(s, i, n, base);
    DigitsAreDigits(n, base);
    assert SkipSpace(s, i) == i;
    if |Digits(n, base)| > 1 { FollowsAt(s, i, Digits(n, base), 1); }
  }

  // Words separated by colons.
  function Joined(ws: Words): Bytes {
    if ws == [] then [] else Digits(ws[0], 16) + Next(ws[1..])
  }

  function Next(ws: Words): Bytes {
    if ws == [] then [] else [COLON] + Digits(ws[0], 16) + Next(ws[1..])
  }

  /** The text is the words in front of the gap, two colons for it, and the words behind. */
  function Shape(ws: Words, gap: nat, len: nat): Bytes
    requires gap + len <= |ws|
  {
    if len == 0 then Joined(ws) else Joined(ws[..gap]) + ([COLON, COLON] + Joined(ws[gap + len..]))
  }

  /** A row of words, with a colon in front if one is needed. */
  function Row(needcolon: bool, ws: Words): Bytes {
    if needcolon then Next(ws) else Joined(ws)
  }

  lemma RowOf(needcolon: bool, ws: Words)
    ensures ws == [] ==> Row(needcolon, ws) == []
    ensures ws != [] ==> Row(needcolon, ws) == WordAt(needcolon, ws[0]) + Row(true, ws[1..])
  {
    if ws != [] && !needcolon { assert WordAt(false, ws[0]) == Digits(ws[0], 16); }
  }

  lemma PrintOne(ws: Words, i: nat, needcolon: bool, gap: nat, len: nat)
    requires i < |ws| && !(i == gap && len > 0)
    ensures PrintFrom(ws, i, needcolon, gap, len) == WordAt(needcolon, ws[i]) + PrintFrom(ws, i + 1, true, gap, len)
  {}

  lemma PrintGap(ws: Words, needcolon: bool, gap: nat, len: nat)
    requires gap < |ws| && len > 0
    ensures PrintFrom(ws, gap, needcolon, gap, len) == [COLON, COLON] + PrintFrom(ws, gap + len, false, gap, len)
  {}

  lemma {:induction false} PrintPlain(ws: Words, i: nat, needcolon: bool, gap: nat, len: nat)
    requires i <= |ws| && (len == 0 || i > gap)
    ensures PrintFrom(ws, i, needcolon, gap, len) == Row(needcolon, ws[i..])
    decreases |ws| - i
  {
    hide Row, WordAt;
    RowOf(needcolon, ws[i..]);
    if i < |ws| {
      hide PrintFrom;
      PrintOne(ws, i, needcolon, gap, len);
      PrintPlain(ws, i + 1, true, gap, len);
      assert ws[i..][1..] == ws[i + 1..];
    }
  }

  lemma {:induction false} PrintToGap(ws: Words, i: nat, needcolon: bool, gap: nat, len: nat)
    requires i <= gap && gap + len <= |ws| && len > 0
    ensures PrintFrom(ws, i, needcolon, gap, len) ==
            Row(needcolon, ws[i..gap]) + ([COLON, COLON] + Row(false, ws[gap + len..]))
    decreases gap - i
  {
    hide PrintFrom, Row, WordAt;
    var rest := [COLON, COLON] + Row(false, ws[gap + len..]);
    RowOf(needcolon, ws[i..gap]);
    if i == gap {
      PrintGap(ws, needcolon, gap, len);
      PrintPlain(ws, gap + len, false, gap, len);
      assert [] + rest == rest;
    } else {
      PrintOne(ws, i, needcolon, gap, len);
      PrintToGap(ws, i + 1, true, gap, len);
      assert ws[i..gap][1..] == ws[i + 1..gap];
      Regroup(WordAt(needcolon, ws[i]), Row(true, ws[i + 1..gap]), rest);
    }
  }

  lemma FirstWord(ws: Words)
    ensures ws == [] ==> Joined(ws) == [] && Next(ws) == []
    ensures ws != [] ==> Joined(ws) == Digits(ws[0], 16) + Next(ws[1..])
    ensures ws != [] ==> Next(ws) == ([COLON] + Digits(ws[0], 16)) + Next(ws[1..])
  {}

  lemma PrintHasShape(ws: Words, gap: nat, len: nat)
    requires gap + len <= |ws|
    ensures PrintFrom(ws, 0, false, gap, len) == Shape(ws, gap, len)
  {
    hide PrintFrom, Joined, Next;
    if len == 0 {
      PrintPlain(ws, 0, false, gap, len);
      assert ws[0..] == ws;
    } else {
      PrintToGap(ws, 0, false, gap, len);
      assert ws[0..gap] == ws[..gap];
    }
  }

  lemma TextHasShape(ws: Words)
    ensures var g := GapUpTo(ws, |ws|); g.0 + g.1 <= |ws| && V6Text(ws) == Shape(ws, g.0, g.1)
  {
    hide PrintFrom, Shape, GapUpTo, Zeros;
    GapIsLastRun(ws, |ws|);
    var g := GapUpTo(ws, |ws|);
    PrintHasShape(ws, g.0, g.1);
  }

  /** The parser takes up a row of words that ends with the text or at the gap. */
  lemma {:induction false} RowBack(s: Bytes, i: nat, ws: Words, head: Words, tail: Words, gap: bool)
    requires ws != [] && WordsOk(ws) && |head| + |tail| + |ws| <= 8 && Follows(s, i, Joined(ws))
    requires var e := i + |Joined(ws)|; e == |s| || (!gap && Ch(s, e) == COLON && Ch(s, e + 1) == COLON)
    ensures var e := i + |Joined(ws)|;
            e <= |s| && V6From(s, i, head, tail, gap) ==
            if gap then V6From(s, e, head, tail + ws, gap) else V6From(s, e, head + ws, tail, gap)
    decreases |ws|
  {
    hide Digits, Strtol, V6From, Joined, Next, Assemble;
    var w, rest := ws[0], ws[1..];
    var e := i + |Digits(w, 16)|;
    RowStarts(s, i, ws);
    WordBack(s, i, w);
    WordTaken(s, i, w, e, head, tail, gap);
    OneWord(head, ws);
    OneWord(tail, ws);
    if rest != [] {
      if gap {
        RowBack(s, e + 1, rest, head, tail + [w], gap);
      } else {
        RowBack(s, e + 1, rest, head + [w], tail, gap);
      }
    }
  }

  lemma OneWord(a: Words, ws: Words)
    requires ws != []
    ensures (a + [ws[0]]) + ws[1..] == a + ws && (ws[1..] == [] ==> a + [ws[0]] == a + ws)
  {}

  /** Behind the first word of a row is a colon and the rest of it, or the end of the row. */
  lemma RowStarts(s: Bytes, i: nat, ws: Words)
    requires ws != [] && Follows(s, i, Joined(ws))
    ensures var d, rest := Digits(ws[0], 16), ws[1..];
            && Follows(s, i, d)
            && (rest == [] ==> |Joined(ws)| == |d|)
            && (rest != [] ==>
                && |Joined(ws)| == |d| + 1 + |Joined(rest)| && Follows(s, i + |d| + 1, Joined(rest))
                && Ch(s, i + |d|) == COLON && Ch(s, i + |d| + 1) != COLON)
  {
    hide Digits, Joined, Next, Follows;
    var d, rest := Digits(ws[0], 16), ws[1..];
    FirstWord(ws);
    FirstWord(rest);
    FollowsBoth(s, i, d, Next(rest));
    if rest != [] {
      Regroup([COLON], Digits(rest[0], 16), Next(rest[1..]));
      FollowsBoth(s, i + |d|, [COLON], Joined(rest));
      FollowsAt(s, i + |d|, [COLON], 0);
      JoinedStarts(s, i + |d| + 1, rest);
    }
  }

  lemma WordTaken(s: Bytes, i: nat, w: nat, e: nat, head: Words, tail: Words, gap: bool)
    requires i < e <= |s| && s[i] != COLON && Strtol(s, i, 16) == (w, e) && w < 0x1_0000 && |head| + |tail| < 8
    requires e == |s| || s[e] == COLON
    ensures var j := if Ch(s, e) == COLON && Ch(s, e + 1) != COLON then e + 1 else e;
            V6From(s, i, head, tail, gap) ==
            if gap then V6From(s, j, head, tail + [w], gap) else V6From(s, j, head + [w], tail, gap)
  {
    hide Strtol;
  }

  lemma WordBack(s: Bytes, i: nat, w: nat)
    requires Follows(s, i, Digits(w, 16)) && (i + |Digits(w, 16)| == |s| || Ch(s, i + |Digits(w, 16)|) == COLON)
    ensures var e := i + |Digits(w, 16)|; i < e <= |s| && Strtol(s, i, 16) == (w, e) && s[i] != COLON
  {
    StrtolBack(s, i, w, 16);
  }

  lemma JoinedStarts(s: Bytes, i: nat, ws: Words)
    requires ws != [] && Follows(s, i, Joined(ws))
    ensures i < |s| && s[i] != COLON
  {
    hide Digits;
    var d := Digits(ws[0], 16);
    DigitsAreDigits(ws[0], 16);
    FollowsBoth(s, i, d, Next(ws[1..]));
    FollowsAt(s, i, d, 0);
  }

  /** All words come back: those around the gap as they are, and those in it as zeros. */
  lemma ShapeBack(s: Bytes, ws: Words, gap: nat, len: nat)
    requires |ws| == 8 && WordsOk(ws) && gap + len <= 8 && Zeros(ws, gap, gap + len) && s == Shape(ws, gap, len)
    ensures V6From(s, 0, [], [], false) == Some(ws)
  {
    hide V6From, Joined, Assemble;
    AssembleBack(ws, gap, len);
    if len == 0 {
      assert s[0..|s|] == s && [] + ws == ws;
      RowBack(s, 0, ws, [], [], false);
      EndReached(s, ws, [], false);
    } else {
      AroundGap(s, ws[..gap], ws[gap + len..]);
    }
  }

  lemma AssembleBack(ws: Words, gap: nat, len: nat)
    requires |ws| == 8 && gap + len <= 8 && Zeros(ws, gap, gap + len)
    ensures Assemble(ws, []) == ws && Assemble(ws[..gap], ws[gap + len..]) == ws
  {}

  lemma AroundGap(s: Bytes, front: Words, back: Words)
    requires WordsOk(front) && WordsOk(back) && |front| + |back| <= 8
    requires s == Joined(front) + ([COLON, COLON] + Joined(back))
    ensures V6From(s, 0, [], [], false) == Some(Assemble(front, back))
  {
    hide V6From, Joined, Assemble, Follows, WordsOk;
    var at := |Joined(front)|;
    GapPlaces(s, at, front, back);
    FrontBack(s, at, front);
    GapTaken(s, at, front);
    BackBack(s, at + 2, front, back);
    EndReached(s, front, back, true);
  }

  /** The words in front of the gap. */
  lemma FrontBack(s: Bytes, at: nat, front: Words)
    requires WordsOk(front) && |front| <= 8 && at == |Joined(front)| && Follows(s, 0, Joined(front))
    requires at < |s| && s[at] == COLON && at + 1 < |s| && s[at + 1] == COLON
    ensures V6From(s, 0, [], [], false) == V6From(s, at, front, [], false)
  {
    hide V6From, Joined, Follows, WordsOk;
    FirstWord(front);
    assert [] + front == front;
    if front != [] { RowBack(s, 0, front, [], [], false); }
  }

  /** The words behind it. */
  lemma BackBack(s: Bytes, at: nat, front: Words, back: Words)
    requires WordsOk(front) && WordsOk(back) && |front| + |back| <= 8
    requires Follows(s, at, Joined(back)) && at + |Joined(back)| == |s|
    ensures V6From(s, at, front, [], true) == V6From(s, |s|, front, back, true)
  {
    hide V6From, Joined, Follows, WordsOk;
    FirstWord(back);
    assert [] + back == back;
    if back != [] { RowBack(s, at, back, front, [], true); }
  }

  lemma GapPlaces(s: Bytes, at: nat, front: Words, back: Words)
    requires s == Joined(front) + ([COLON, COLON] + Joined(back)) && at == |Joined(front)|
    ensures Follows(s, 0, Joined(front)) && Follows(s, at + 2, Joined(back)) && at + 2 + |Joined(back)| == |s|
    ensures s[at] == COLON && s[at + 1] == COLON
  {
    hide Joined;
    assert s[0..|s|] == s;
    FollowsBoth(s, 0, Joined(front), [COLON, COLON] + Joined(back));
    FollowsBoth(s, at, [COLON, COLON], Joined(back));
    FollowsAt(s, at, [COLON, COLON], 0);
    FollowsAt(s, at, [COLON, COLON], 1);
  }

  lemma EndReached(s: Bytes, head: Words, tail: Words, gap: bool)
    ensures V6From(s, |s|, head, tail, gap) == Some(Assemble(head, tail))
  {}

  lemma GapTaken(s: Bytes, i: nat, head: Words)
    requires i + 2 <= |s| && s[i] == COLON && s[i + 1] == COLON
    ensures V6From(s, i, head, [], false) == V6From(s, i + 2, head, [], true)
  {}

  lemma V6Back(data: Bytes)
    requires |data| == 16
    ensures V6From(V6Text(WordsOf(data)), 0, [], [], false) == Some(WordsOf(data))
  {
    hide V6From, V6Text, Shape, GapUpTo, Zeros, WordsOf;
    var ws := WordsOf(data);
    WordsBack(data);
    EightWords(data);
    GapIsLastRun(ws, 8);
    TextHasShape(ws);
    var g := GapUpTo(ws, 8);
    ShapeBack(V6Text(ws), ws, g.0, g.1);
  }

  lemma EightWords(data: Bytes)
    requires |data| == 16
    ensures |WordsOf(data)| == 8
  {}

  lemma {:induction false} V4Back(s: Bytes, i: nat, d: Bytes, k: nat, acc: Bytes)
    requires |d| == 16 && k < 4 && Follows(s, i, V4Text(d, k)) && i + |V4Text(d, k)| == |s|
    ensures V4From(s, i, k, acc) == Some(acc + d[12 + k..])
    decreases 4 - k
  {
    hide Digits, Strtol;
    var n: nat := d[12 + k];
    var e := i + |Digits(n, 10)|;
    if k == 3 {
      StrtolBack(s, i, n, 10);
      assert d[15..] == [d[15]];
    } else {
      FollowsBoth(s, i, Digits(n, 10), [DOT] + V4Text(d, k + 1));
      FollowsBoth(s, e, [DOT], V4Text(d, k + 1));
      FollowsAt(s, e, [DOT], 0);
      StrtolBack(s, i, n, 10);
      V4Back(s, e + 1, d, k + 1, acc + [n]);
      assert acc + d[12 + k..] == (acc + [n]) + d[12 + (k + 1)..];
    }
  }

  // ----- Characters and lengths -----

  ghost predicate HexText(t: Bytes) {
    forall i :: 0 <= i < |t| ==> IsDigit(t[i], 16) || t[i] == COLON
  }

  ghost predicate DottedText(t: Bytes) {
    forall i :: 0 <= i < |t| ==> IsDigit(t[i], 10) || t[i] == DOT
  }

  lemma HexBoth(a: Bytes, b: Bytes)
    requires HexText(a) && HexText(b)
    ensures HexText(a + b)
  {}

  lemma {:induction false} NextText(ws: Words)
    requires WordsOk(ws)
    ensures HexText(Next(ws)) && 2 * |ws| <= |Next(ws)| <= 5 * |ws|
  {
    if ws != [] {
      NextText(ws[1..]);
      WordText(ws[0]);
      HexBoth([COLON], Digits(ws[0], 16));
      HexBoth([COLON] + Digits(ws[0], 16), Next(ws[1..]));
    }
  }

  lemma WordText(w: nat)
    requires w < 0x1_0000
    ensures HexText(Digits(w, 16)) && 1 <= |Digits(w, 16)| <= 4
  {
    hide Digits;
    DigitsAreDigits(w, 16);
    assert Power(16, 2) == 256 && Power(16, 3) == 4096 && Power(16, 4) == 0x1_0000;
    DigitsShort(w, 16, 4);
  }

  lemma JoinedText(ws: Words)
    requires WordsOk(ws)
    ensures HexText(Joined(ws))
    ensures if ws == [] then Joined(ws) == [] else 2 * |ws| - 1 <= |Joined(ws)| <= 5 * |ws| - 1
  {
    hide Digits;
    if ws != [] {
      NextText(ws[1..]);
      WordText(ws[0]);
      HexBoth(Digits(ws[0], 16), Next(ws[1..]));
    }
  }

  lemma V6TextFits(data: Bytes)
    requires |data| == 16
    ensures HexText(V6Text(WordsOf(data))) && 2 <= |V6Text(WordsOf(data))| <= 39
  {
    hide Joined, GapUpTo, V6Text, Zeros, WordsOf, HexText;
    var ws := WordsOf(data);
    WordsBack(data);
    EightWords(data);
    GapIsLastRun(ws, 8);
    TextHasShape(ws);
    var g := GapUpTo(ws, 8);
    ShapeFits(ws, g.0, g.1);
  }

  lemma ShapeFits(ws: Words, gap: nat, len: nat)
    requires |ws| == 8 && WordsOk(ws) && gap + len <= 8
    ensures HexText(Shape(ws, gap, len)) && 2 <= |Shape(ws, gap, len)| <= 39
  {
    hide Joined;
    if len == 0 {
      JoinedText(ws);
    } else {
      var front, back := ws[..gap], ws[gap + len..];
      JoinedText(front);
      JoinedText(back);
      HexBoth([COLON, COLON], Joined(back));
      HexBoth(Joined(front), [COLON, COLON] + Joined(back));
    }
  }

  lemma {:induction false} V4TextFits(d: Bytes, k: nat)
    requires |d| == 16 && k < 4
    ensures DottedText(V4Text(d, k)) && 7 - 2 * k <= |V4Text(d, k)| <= 15 - 4 * k
    decreases 4 - k
  {
    hide Digits;
    var n: nat := d[12 + k];
    DigitsAreDigits(n, 10);
    assert Power(10, 2) == 100 && Power(10, 3) == 1000;
    DigitsShort(n, 10, 3);
    if k < 3 { V4TextFits(d, k + 1); }
  }

  // ----- The round trip -----

  lemma NotV4(s: Bytes)
    requires HexText(s)
    ensures V4From(s, 0, 0, []) == None
  {
    hide Strtol;
  }

  lemma {:induction false} SlashFound(host: Bytes, more: Bytes)
    requires (forall i :: 0 <= i < |host| ==> host[i] != SLASH) && (more == [] || more[0] == SLASH)
    ensures SlashAt(host + more) == |host|
  {
    var s := host + more;
    assert forall i :: 0 <= i < |host| ==> s[i] == host[i];
    assert more != [] ==> s[|host|] == more[0];
  }

  lemma HostBack(a: Address)
    requires WellFormed(a)
    ensures Host(HostText(a)) == Some((a.v6, a.data)) && 2 <= |HostText(a)| <= 39
    ensures forall i :: 0 <= i < |HostText(a)| ==> HostText(a)[i] != SLASH
  {
    if a.v6 { HostV6Back(a); } else { HostV4Back(a); }
  }

  lemma HostV6Back(a: Address)
    requires WellFormed(a) && a.v6
    ensures Host(HostText(a)) == Some((true, a.data)) && 2 <= |HostText(a)| <= 39
    ensures forall i :: 0 <= i < |HostText(a)| ==> HostText(a)[i] != SLASH
  {
    hide V6From, V4From, V6Text, BytesOf, WordsOf;
    V6TextFits(a.data);
    V6Back(a.data);
    WordsBack(a.data);
    NotV4(HostText(a));
  }

  lemma HostV4Back(a: Address)
    requires WellFormed(a) && !a.v6
    ensures Host(HostText(a)) == Some((false, a.data)) && 2 <= |HostText(a)| <= 39
    ensures forall i :: 0 <= i < |HostText(a)| ==> HostText(a)[i] != SLASH
  {
    hide V6From, V4From, V4Text;
    var t := HostText(a);
    assert t[0..|t|] == t;
    V4TextFits(a.data, 0);
    V4Back(t, 0, a.data, 0, []);
    assert seq(12, _ => 0) + a.data[12..] == a.data && [] + a.data[12..] == a.data[12..];
  }

  lemma PrefixBack(p: nat)
    requires p <= 128
    ensures PrefixOf(Digits(p, 10)) == Some(p) && |Digits(p, 10)| <= 3
  {
    hide Digits;
    var t := Digits(p, 10);
    assert t[0..|t|] == t;
    StrtolBack(t, 0, p, 10);
    assert Power(10, 2) == 100 && Power(10, 3) == 1000;
    DigitsShort(p, 10, 3);
  }

  /** Every address, with any prefix length, reads back from its text as it was; the text fits `str[44]`. */
  lemma RoundTrip(a: Address)
    requires WellFormed(a)
    ensures |Text(a)| <= 43 && Create(Text(a)) == Some(a)
  {
    hide Host, HostText, PrefixOf, Digits;
    var host, more, s := HostText(a), PrefixText(a.prefixlen, Full(a.v6)), Text(a);
    HostBack(a);
    PrefixBack(a.prefixlen);
    SlashFound(host, more);
    assert s[..|host|] == host;
    if more != [] { assert s[|host| + 1..] == Digits(a.prefixlen, 10); }
  }

  /** The prefix is shown unless it takes in the whole address. */
  lemma PrefixShown(a: Address)
    requires WellFormed(a)
    ensures 0x2f in Text(a) <==> a.prefixlen < if a.v6 then 128 else 32
    ensures 0x2f !in Text(a) ==> Text(a) == HostText(a)
  {
    hide HostText, Digits;
    HostBack(a);
    if a.prefixlen < Full(a.v6) { assert Text(a)[|HostText(a)|] == 0x2f; }
  }

  /** Different addresses never share their text. */
  lemma TextIsInjective(a: Address, b: Address)
    requires WellFormed(a) && WellFormed(b) && Text(a) == Text(b)
    ensures a == b
  {
    RoundTrip(a);
    RoundTrip(b);
  }
}
