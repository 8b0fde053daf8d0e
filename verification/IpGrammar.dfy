/** The texts that the address parser accepts (ipaddr.c), with the address each of them stands for. */
module IpGrammar {
  import opened Common
  import opened Texts
  import opened IpAddr

  // ----- Numerals -----

  /** What strtol takes: white space, a sign, a prefix in base 16, and digits. */
  datatype Numeral = Numeral(space: Bytes, sign: Bytes, prefix: Bytes, digits: Bytes)

  predicate Space(s: Bytes) {
    forall i :: 0 <= i < |s| ==>
      s[i] == 0x20 || s[i] == 0x09 || s[i] == 0x0a || s[i] == 0x0b || s[i] == 0x0c || s[i] == 0x0d
  }

  predicate InBase(ds: Bytes, base: nat) {
    forall i :: 0 <= i < |ds| ==> 0 <= DigitOf(ds[i]) < base
  }

  function Worth(ds: Bytes, base: nat): nat
    requires InBase(ds, base)
  {
    if ds == [] then 0 else base * Worth(ds[..|ds| - 1], base) + DigitOf(ds[|ds| - 1])
  }

  predicate NumeralOk(n: Numeral, base: nat) {
    && Space(n.space) && (n.sign == [] || n.sign == [0x2b] || n.sign == [0x2d])
    && (n.prefix == [] || (base == 16 && (n.prefix == [0x30, 0x78] || n.prefix == [0x30, 0x58])))
    && n.digits != [] && InBase(n.digits, base)
  }

  function NumeralText(n: Numeral): Bytes {
    n.space + (n.sign + (n.prefix + n.digits))
  }

  function NumberOf(n: Numeral, base: nat): int
    requires NumeralOk(n, base)
  {
    if n.sign == [0x2d] then -(Worth(n.digits, base) as int) else Worth(n.digits, base)
  }

  lemma {:induction false} WorthIs(ds: Bytes, base: nat)
    requires InBase(ds, base)
    ensures NatOf(ds, base) == Worth(ds, base)
  {
    if ds != [] { WorthIs(ds[..|ds| - 1], base); }
  }

  lemma {:induction false} SpaceSkipped(s: Bytes, i: nat, n: nat)
    requires i <= n <= |s| && Space(s[i..n]) && (n < |s| ==> !IsSpace(s[n]))
    ensures SkipSpace(s, i) == n
    decreases n - i
  {
    if i < n {
      assert s[i] == s[i..n][0] && s[i + 1..n] == s[i..n][1..];
      SpaceSkipped(s, i + 1, n);
    }
  }

  lemma {:induction false} SpaceIs(s: Bytes, i: nat)
    requires i <= |s|
    ensures Space(s[i..SkipSpace(s, i)])
    decreases |s| - i
  {
    if i < |s| && IsSpace(s[i]) {
      SpaceIs(s, i + 1);
      assert s[i..SkipSpace(s, i)] == [s[i]] + s[i + 1..SkipSpace(s, i)];
    }
  }

  lemma DigitsTaken(s: Bytes, i: nat, ds: Bytes, base: nat)
    requires InBase(ds, base) && Follows(s, i, ds) && !IsDigit(Ch(s, i + |ds|), base)
    ensures DigitsEnd(s, i, base) == i + |ds| && s[i..i + |ds|] == ds
  {
    forall k | i <= k < i + |ds| ensures IsDigit(s[k], base) {
      FollowsAt(s, i, ds, k - i);
      NibbleIsDigit(s[k]);
    }
    DigitsStop(s, i, i + |ds|, base);
  }

  lemma {:induction false} DigitsGot(s: Bytes, i: nat, base: nat)
    requires i <= |s|
    ensures InBase(s[i..DigitsEnd(s, i, base)], base)
    decreases |s| - i
  {
    if i < |s| && IsDigit(s[i], base) {
      DigitsGot(s, i + 1, base);
      NibbleIsDigit(s[i]);
      assert s[i..DigitsEnd(s, i, base)] == [s[i]] + s[i + 1..DigitsEnd(s, i, base)];
    }
  }

  /** What comes behind a numeral. */
  predicate Ends(c: Byte) {
    c == 0 || c == DOT || c == COLON
  }

  lemma NumeralStarts(n: Numeral, base: nat)
    requires Base(base) && NumeralOk(n, base)
    ensures var t := n.sign + (n.prefix + n.digits); t != [] && !IsSpace(t[0])
    ensures NumeralText(n) != [] && NumeralText(n)[0] != COLON
  {
    NibbleIsDigit(n.digits[0]);
    var t := n.sign + (n.prefix + n.digits);
    assert t[0] == if n.sign != [] then n.sign[0] else if n.prefix != [] then n.prefix[0] else n.digits[0];
    assert NumeralText(n)[0] == if n.space != [] then n.space[0] else t[0];
  }

  /** Where the parts of a numeral are. */
  lemma PartsFound(s: Bytes, i: nat, n: Numeral)
    requires Follows(s, i, NumeralText(n))
    ensures var j, k := i + |n.space|, i + |n.space| + |n.sign|;
            && Follows(s, i, n.space) && Follows(s, j, n.sign + (n.prefix + n.digits)) && Follows(s, j, n.sign)
            && Follows(s, k, n.prefix) && Follows(s, k + |n.prefix|, n.digits)
            && i + |NumeralText(n)| == k + |n.prefix| + |n.digits| <= |s|
  {
    FollowsBoth(s, i, n.space, n.sign + (n.prefix + n.digits));
    FollowsBoth(s, i + |n.space|, n.sign, n.prefix + n.digits);
    FollowsBoth(s, i + |n.space| + |n.sign|, n.prefix, n.digits);
  }

  lemma SignFound(s: Bytes, j: nat, n: Numeral, base: nat)
    requires Base(base) && NumeralOk(n, base) && Follows(s, j, n.sign + (n.prefix + n.digits))
    ensures (Ch(s, j) == 0x2b || Ch(s, j) == 0x2d) <==> n.sign != []
    ensures Ch(s, j) == 0x2d <==> n.sign == [0x2d]
  {
    var t := n.sign + (n.prefix + n.digits);
    NibbleIsDigit(n.digits[0]);
    FollowsAt(s, j, t, 0);
    assert t[0] == if n.sign != [] then n.sign[0] else if n.prefix != [] then n.prefix[0] else n.digits[0];
  }

  lemma PrefixFound(s: Bytes, k: nat, n: Numeral, base: nat)
    requires Base(base) && NumeralOk(n, base) && Follows(s, k, n.prefix) && Follows(s, k + |n.prefix|, n.digits)
    requires Ends(Ch(s, k + |n.prefix| + |n.digits|))
    ensures (base == 16 && Ch(s, k) == 0x30 && (Ch(s, k + 1) == 0x78 || Ch(s, k + 1) == 0x58)
             && IsDigit(Ch(s, k + 2), 16)) <==> n.prefix != []
  {
    if n.prefix != [] {
      FollowsAt(s, k, n.prefix, 0);
      FollowsAt(s, k, n.prefix, 1);
      FollowsAt(s, k + 2, n.digits, 0);
      NibbleIsDigit(n.digits[0]);
    } else if |n.digits| > 1 {
      FollowsAt(s, k, n.digits, 1);
      NibbleIsDigit(n.digits[1]);
    }
  }

  lemma NumeralSize(n: Numeral, base: nat)
    requires NumeralOk(n, base)
    ensures |n.prefix| == (if n.prefix != [] then 2 else 0) && |n.sign| == (if n.sign != [] then 1 else 0)
    ensures Space(n.space) && n.digits != [] && InBase(n.digits, base)
  {}

  lemma NumeralTaken(s: Bytes, i: nat, n: Numeral, base: nat)
    requires Base(base) && NumeralOk(n, base) && Follows(s, i, NumeralText(n)) && Ends(Ch(s, i + |NumeralText(n)|))
    ensures var j := i + |n.space|;
            var e := j + |n.sign| + |n.prefix| + |n.digits|;
            && i <= |s| && e <= |s| && e == i + |NumeralText(n)|
            && Strtol(s, i, base) ==
               (if Ch(s, j) == 0x2d then -(NatOf(n.digits, base) as int) else NatOf(n.digits, base), e)
  {
    hide DigitsEnd, NatOf, Follows, SkipSpace, IsDigit, NumeralText, InBase, Space, Ends, Ch, Strtol, NumeralOk,
      IsSpace, Base;
    var j, k := i + |n.space|, i + |n.space| + |n.sign|;
    var d, e := k + |n.prefix|, k + |n.prefix| + |n.digits|;
    PartsFound(s, i, n);
    NumeralSize(n, base);
    FrontTaken(s, i, n, base, j, k);
    PrefixFound(s, k, n, base);
    BackTaken(s, d, n, base);
    StrtolIs(s, i, base, j, k, d, e);
  }

  lemma FrontTaken(s: Bytes, i: nat, n: Numeral, base: nat, j: nat, k: nat)
    requires Base(base) && NumeralOk(n, base) && Follows(s, i, NumeralText(n))
    requires j == i + |n.space| && k == j + |n.sign|
    ensures i <= |s| && SkipSpace(s, i) == j
    ensures k == if Ch(s, j) == 0x2b || Ch(s, j) == 0x2d then j + 1 else j
  {
    hide Follows, SkipSpace, NumeralText, InBase, Space, Ch, NumeralOk, IsSpace, Base;
    PartsFound(s, i, n);
    NumeralSize(n, base);
    NumeralStarts(n, base);
    SpaceRead(s, i, n.space, n.sign + (n.prefix + n.digits));
    SignFound(s, j, n, base);
  }

  lemma BackTaken(s: Bytes, d: nat, n: Numeral, base: nat)
    requires NumeralOk(n, base) && Follows(s, d, n.digits) && Ends(Ch(s, d + |n.digits|))
    ensures d < d + |n.digits| <= |s| && DigitsEnd(s, d, base) == d + |n.digits| && s[d..d + |n.digits|] == n.digits
  {
    hide DigitsEnd, InBase, Space, Ends, Ch;
    NotDigit(Ch(s, d + |n.digits|), base);
    DigitsTaken(s, d, n.digits, base);
  }

  lemma StrtolRead(s: Bytes, i: nat, n: Numeral, base: nat)
    requires Base(base) && NumeralOk(n, base) && Follows(s, i, NumeralText(n)) && Ends(Ch(s, i + |NumeralText(n)|))
    ensures i < i + |NumeralText(n)| <= |s| && Strtol(s, i, base) == (NumberOf(n, base), i + |NumeralText(n)|)
  {
    hide NatOf, Worth, Follows, SkipSpace, NumeralText, Space, Ends, Ch, Strtol;
    PartsFound(s, i, n);
    NumeralTaken(s, i, n, base);
    SignFound(s, i + |n.space|, n, base);
    WorthIs(n.digits, base);
  }

  lemma StrtolIs(s: Bytes, i: nat, base: nat, j: nat, k: nat, d: nat, e: nat)
    requires i <= |s| && SkipSpace(s, i) == j && d < e <= |s| && (d == k || d == k + 2)
    requires k == if Ch(s, j) == 0x2b || Ch(s, j) == 0x2d then j + 1 else j
    requires (base == 16 && Ch(s, k) == 0x30 && (Ch(s, k + 1) == 0x78 || Ch(s, k + 1) == 0x58)
              && IsDigit(Ch(s, k + 2), 16)) <==> d == k + 2
    requires DigitsEnd(s, d, base) == e
    ensures var n := NatOf(s[d..e], base) as int; Strtol(s, i, base) == (if Ch(s, j) == 0x2d then -n else n, e)
  {
    hide DigitsEnd, NatOf, SkipSpace, IsDigit;
  }

  lemma NotDigit(c: Byte, base: nat)
    requires Ends(c)
    ensures !IsDigit(c, base)
  {}

  lemma SpaceRead(s: Bytes, i: nat, space: Bytes, rest: Bytes)
    requires Space(space) && Follows(s, i, space) && Follows(s, i + |space|, rest) && rest != [] && !IsSpace(rest[0])
    ensures i <= |s| && SkipSpace(s, i) == i + |space|
  {
    FollowsAt(s, i + |space|, rest, 0);
    SpaceSkipped(s, i, i + |space|);
  }

  lemma StrtolSpelled(s: Bytes, i: nat, base: nat) returns (n: Numeral)
    requires Base(base) && i <= |s| && Strtol(s, i, base).1 > i
    ensures NumeralOk(n, base) && Follows(s, i, NumeralText(n))
    ensures Strtol(s, i, base) == (NumberOf(n, base), i + |NumeralText(n)|)
  {
    hide DigitsEnd, NatOf, Worth, SkipSpace, IsDigit, InBase, Follows, Base, Ch;
    var j := SkipSpace(s, i);
    var k := if Ch(s, j) == 0x2b || Ch(s, j) == 0x2d then j + 1 else j;
    var hex := base == 16 && Ch(s, k) == 0x30 && (Ch(s, k + 1) == 0x78 || Ch(s, k + 1) == 0x58)
               && IsDigit(Ch(s, k + 2), 16);
    var d := if hex then k + 2 else k;
    FrontInside(s, j, k, d);
    var e := DigitsEnd(s, d, base);
    SpaceIs(s, i);
    DigitsGot(s, d, base);
    n := Numeral(s[i..j], s[j..k], s[k..d], s[d..e]);
    WorthIs(s[d..e], base);
    Gathered(s, i, j, k, d, e);
    StrtolIs(s, i, base, j, k, d, e);
  }

  /** The sign and the prefix are bytes of the text. */
  lemma FrontInside(s: Bytes, j: nat, k: nat, d: nat)
    requires j <= |s| && k == if Ch(s, j) == 0x2b || Ch(s, j) == 0x2d then j + 1 else j
    requires d == k || (d == k + 2 && Ch(s, k) == 0x30 && (Ch(s, k + 1) == 0x78 || Ch(s, k + 1) == 0x58))
    ensures k <= d <= |s|
    ensures s[j..k] == (if Ch(s, j) == 0x2b || Ch(s, j) == 0x2d then [Ch(s, j)] else [])
    ensures d > k ==> s[k..d] == [0x30, Ch(s, k + 1)]
    ensures d == k ==> s[k..d] == []
  {}

  lemma Gathered(s: Bytes, i: nat, j: nat, k: nat, d: nat, e: nat)
    requires i <= j <= k <= d <= e <= |s|
    ensures Follows(s, i, s[i..j] + (s[j..k] + (s[k..d] + s[d..e])))
    ensures |s[i..j] + (s[j..k] + (s[k..d] + s[d..e]))| == e - i
  {
    assert s[i..e] == s[i..j] + (s[j..k] + (s[k..d] + s[d..e]));
  }

  // ----- IPv4: four numbers -----

  predicate ByteOk(n: Numeral) {
    NumeralOk(n, 10) && 0 <= NumberOf(n, 10) <= 255
  }

  predicate V4Ok(ns: seq<Numeral>) {
    forall i :: 0 <= i < |ns| ==> ByteOk(ns[i])
  }

  /** With dots between them. */
  function V4Spelling(ns: seq<Numeral>): Bytes {
    if ns == [] then []
    else if |ns| == 1 then NumeralText(ns[0])
    else NumeralText(ns[0]) + ([0x2e] + V4Spelling(ns[1..]))
  }

  function V4Bytes(ns: seq<Numeral>): Bytes
    requires V4Ok(ns)
  {
    if ns == [] then [] else [NumberOf(ns[0], 10)] + V4Bytes(ns[1..])
  }

  lemma {:induction false} V4Read(s: Bytes, i: nat, ns: seq<Numeral>, acc: Bytes)
    requires V4Ok(ns) && 0 < |ns| <= 4 && Follows(s, i, V4Spelling(ns)) && i + |V4Spelling(ns)| == |s|
    ensures V4From(s, i, 4 - |ns|, acc) == Some(acc + V4Bytes(ns))
    decreases |ns|
  {
    hide Strtol, NumeralOk, NumberOf, NumeralText, Follows;
    var n, t := ns[0], NumeralText(ns[0]);
    assert ByteOk(n);
    Regroup(acc, [NumberOf(n, 10)], V4Bytes(ns[1..]));
    if |ns| == 1 {
      StrtolRead(s, i, n, 10);
      assert acc + [NumberOf(n, 10)] + [] == acc + [NumberOf(n, 10)];
    } else {
      FollowsBoth(s, i, t, [0x2e] + V4Spelling(ns[1..]));
      FollowsBoth(s, i + |t|, [0x2e], V4Spelling(ns[1..]));
      FollowsAt(s, i + |t|, [0x2e], 0);
      StrtolRead(s, i, n, 10);
      V4Read(s, i + |t| + 1, ns[1..], acc + [NumberOf(n, 10)]);
    }
  }

  lemma {:induction false} V4Spelled(s: Bytes, i: nat, k: nat, acc: Bytes) returns (ns: seq<Numeral>)
    requires i <= |s| && k < 4 && V4From(s, i, k, acc).Some?
    ensures V4Ok(ns) && |ns| == 4 - k && Follows(s, i, V4Spelling(ns)) && i + |V4Spelling(ns)| == |s|
    decreases 4 - k
  {
    hide Strtol, NumeralOk, NumberOf, NumeralText, Follows;
    var n := StrtolSpelled(s, i, 10);
    var e := i + |NumeralText(n)|;
    if k == 3 {
      ns := [n];
    } else {
      var rest := V4Spelled(s, e + 1, k + 1, acc + [NumberOf(n, 10)]);
      ns := [n] + rest;
      assert ns[1..] == rest;
      OneByteJoined(s, e, 0x2e, V4Spelling(rest));
      Joins(s, i, NumeralText(n), [0x2e] + V4Spelling(rest));
    }
  }

  lemma OneByteJoined(s: Bytes, i: nat, b: Byte, rest: Bytes)
    requires i < |s| && s[i] == b && Follows(s, i + 1, rest)
    ensures Follows(s, i, [b] + rest)
  {
    assert s[i..i + 1] == [b];
    Joins(s, i, [b], rest);
  }

  lemma Joins(s: Bytes, i: nat, a: Bytes, b: Bytes)
    requires Follows(s, i, a) && Follows(s, i + |a|, b)
    ensures Follows(s, i, a + b)
  {
    assert s[i..i + |a + b|] == s[i..i + |a|] + s[i + |a|..i + |a| + |b|];
  }

  // ----- IPv6: words, perhaps a gap, and words -----

  /** A colon may come behind the last word. */
  datatype V6Syntax = V6Syntax(front: seq<Numeral>, gap: bool, back: seq<Numeral>, colon: bool)

  predicate WordOk(n: Numeral) {
    NumeralOk(n, 16) && 0 <= NumberOf(n, 16) <= 0xffff
  }

  predicate RowOk(ns: seq<Numeral>) {
    forall i :: 0 <= i < |ns| ==> WordOk(ns[i])
  }

  /** Words with colons between them. */
  function RowSpelling(ns: seq<Numeral>): Bytes {
    if ns == [] then []
    else if |ns| == 1 then NumeralText(ns[0])
    else NumeralText(ns[0]) + ([0x3a] + RowSpelling(ns[1..]))
  }

  function RowWords(ns: seq<Numeral>): Words
    requires RowOk(ns)
  {
    if ns == [] then [] else [NumberOf(ns[0], 16)] + RowWords(ns[1..])
  }

  /** At most eight words; without a gap, fewer are taken as well. */
  predicate V6Ok(x: V6Syntax) {
    && RowOk(x.front) && RowOk(x.back) && |x.front| + |x.back| <= 8
    && (!x.gap ==> x.back == []) && (x.colon ==> (if x.gap then x.back else x.front) != [])
  }

  function V6Spelling(x: V6Syntax): Bytes {
    RowSpelling(x.front)
    + ((if x.gap then [0x3a, 0x3a] else []) + (RowSpelling(x.back) + (if x.colon then [0x3a] else [])))
  }

  /** Zeros fill the place of the gap; without one, they come last. */
  function V6Words(x: V6Syntax): Words
    requires V6Ok(x)
  {
    RowWords(x.front) + seq(8 - |x.front| - |x.back|, _ => 0) + RowWords(x.back)
  }

  lemma RowWordsIs(ns: seq<Numeral>)
    requires RowOk(ns)
    ensures |RowWords(ns)| == |ns|
  {}

  lemma RowStart(ns: seq<Numeral>)
    requires RowOk(ns)
    ensures (ns == [] <==> RowSpelling(ns) == []) && (ns != [] ==> RowSpelling(ns)[0] != 0x3a)
  {
    hide NumeralText, NumeralOk, NumberOf;
    if ns != [] {
      assert WordOk(ns[0]);
      NumeralStarts(ns[0], 16);
    }
  }

  /** Whatever comes behind a row: the end, a last colon, or the gap. */
  ghost predicate RowEnds(s: Bytes, e: nat, gap: bool) {
    e == |s| || (e + 1 == |s| && s[e] == 0x3a) || (!gap && Ch(s, e) == 0x3a && Ch(s, e + 1) == 0x3a)
  }

  /** Where the parser goes on behind a row. */
  function Behind(s: Bytes, e: nat): nat {
    if e + 1 == |s| then e + 1 else e
  }

  lemma FirstTaken(s: Bytes, i: nat, ns: seq<Numeral>, gap: bool) returns (e: nat)
    requires ns != [] && RowOk(ns) && Follows(s, i, RowSpelling(ns)) && RowEnds(s, i + |RowSpelling(ns)|, gap)
    ensures i < e <= |s| && s[i] != COLON && Strtol(s, i, 16) == (NumberOf(ns[0], 16), e)
    ensures 0 <= NumberOf(ns[0], 16) < 0x1_0000
    ensures |ns| == 1 ==> e == i + |RowSpelling(ns)|
    ensures |ns| > 1 ==> Ch(s, e) == COLON && Ch(s, e + 1) != COLON && Follows(s, e + 1, RowSpelling(ns[1..]))
                         && e + 1 + |RowSpelling(ns[1..])| == i + |RowSpelling(ns)|
  {
    hide Strtol, NumeralText, NumeralOk, NumberOf, Follows;
    var t := NumeralText(ns[0]);
    assert WordOk(ns[0]);
    e := i + |t|;
    if |ns| > 1 {
      FollowsBoth(s, i, t, [0x3a] + RowSpelling(ns[1..]));
      FollowsBoth(s, e, [0x3a], RowSpelling(ns[1..]));
      FollowsAt(s, e, [0x3a], 0);
      RowStart(ns[1..]);
      FollowsAt(s, e + 1, RowSpelling(ns[1..]), 0);
    }
    NumeralStarts(ns[0], 16);
    FollowsAt(s, i, t, 0);
    StrtolRead(s, i, ns[0], 16);
  }

  /** A row is taken up whole. */
  lemma {:induction false} RowRead(s: Bytes, i: nat, ns: seq<Numeral>, head: Words, tail: Words, gap: bool)
    requires ns != [] && RowOk(ns) && |head| + |tail| + |ns| <= 8 && Follows(s, i, RowSpelling(ns))
    requires RowEnds(s, i + |RowSpelling(ns)|, gap)
    ensures i < |s| && i + |RowSpelling(ns)| <= |s|
    ensures var j := Behind(s, i + |RowSpelling(ns)|);
            V6From(s, i, head, tail, gap) ==
            if gap then V6From(s, j, head, tail + RowWords(ns), gap) else V6From(s, j, head + RowWords(ns), tail, gap)
    decreases |ns|
  {
    hide Strtol, NumeralText, NumeralOk, NumberOf, Follows, V6From;
    var e := FirstTaken(s, i, ns, gap);
    var w, rest := NumberOf(ns[0], 16), RowWords(ns[1..]);
    WordTaken(s, i, w, e, head, tail, gap);
    Regroup(head, [w], rest);
    Regroup(tail, [w], rest);
    if |ns| > 1 {
      if gap {
        RowRead(s, e + 1, ns[1..], head, tail + [w], gap);
      } else {
        RowRead(s, e + 1, ns[1..], head + [w], tail, gap);
      }
    } else {
      assert head + [w] + [] == head + [w] && tail + [w] + [] == tail + [w];
    }
  }

  /** A row at the end of the text, with a last colon behind it or not. */
  lemma LastRow(s: Bytes, i: nat, ns: seq<Numeral>, colon: bool, head: Words, tail: Words, gap: bool)
    requires RowOk(ns) && |head| + |tail| + |ns| <= 8 && (colon ==> ns != [])
    requires Follows(s, i, RowSpelling(ns) + ColonIf(colon)) && i + |RowSpelling(ns)| + |ColonIf(colon)| == |s|
    ensures V6From(s, i, head, tail, gap) ==
            Some(if gap then Assemble(head, tail + RowWords(ns)) else Assemble(head + RowWords(ns), tail))
  {
    hide NumeralText, NumeralOk, NumberOf, Follows, V6From, Assemble, RowSpelling;
    RowStart(ns);
    FollowsBoth(s, i, RowSpelling(ns), ColonIf(colon));
    if colon { FollowsAt(s, i + |RowSpelling(ns)|, [0x3a], 0); }
    if ns != [] { RowRead(s, i, ns, head, tail, gap); }
    assert head + [] == head && tail + [] == tail;
    EndReached(s, head + RowWords(ns), tail, gap);
    EndReached(s, head, tail + RowWords(ns), gap);
  }

  function ColonIf(c: bool): Bytes {
    if c then [0x3a] else []
  }

  lemma AssembleIs(x: V6Syntax)
    requires V6Ok(x)
    ensures V6Words(x) == Assemble(RowWords(x.front), RowWords(x.back)) && |V6Words(x)| == 8
  {
    RowWordsIs(x.front);
    RowWordsIs(x.back);
  }

  lemma V6Read(s: Bytes, x: V6Syntax)
    requires V6Ok(x) && s == V6Spelling(x)
    ensures V6From(s, 0, [], [], false) == Some(V6Words(x))
  {
    hide NumeralText, NumeralOk, NumberOf, Follows, V6From, Assemble, RowSpelling, V6Words, RowOk;
    AssembleIs(x);
    Whole(s);
    assert [] + RowWords(x.front) == RowWords(x.front) && [] + RowWords(x.back) == RowWords(x.back);
    if x.gap { GapRead(s, x); } else { PlainRead(s, x); }
  }

  lemma Whole(s: Bytes)
    ensures Follows(s, 0, s)
  {
    assert s[0..|s|] == s;
  }

  lemma PlainRead(s: Bytes, x: V6Syntax)
    requires V6Ok(x) && !x.gap && s == V6Spelling(x)
    ensures V6From(s, 0, [], [], false) == Some(Assemble([] + RowWords(x.front), RowWords(x.back)))
  {
    hide NumeralText, NumeralOk, NumberOf, Follows, V6From, Assemble, RowOk;
    Whole(s);
    assert [] + ([] + ColonIf(x.colon)) == ColonIf(x.colon);
    LastRow(s, 0, x.front, x.colon, [], [], false);
  }

  lemma GapRead(s: Bytes, x: V6Syntax)
    requires V6Ok(x) && x.gap && s == V6Spelling(x)
    ensures V6From(s, 0, [], [], false) == Some(Assemble([] + RowWords(x.front), [] + RowWords(x.back)))
  {
    hide NumeralText, NumeralOk, NumberOf, Follows, V6From, Assemble, RowSpelling, RowOk, RowWords;
    var at := |RowSpelling(x.front)|;
    GapFound(s, x.front, RowSpelling(x.back) + ColonIf(x.colon));
    FrontRead(s, at, x.front);
    GapTaken(s, at, [] + RowWords(x.front));
    RowWordsIs(x.front);
    LastRow(s, at + 2, x.back, x.colon, [] + RowWords(x.front), [], true);
  }

  lemma GapFound(s: Bytes, front: seq<Numeral>, rest: Bytes)
    requires s == RowSpelling(front) + ([0x3a, 0x3a] + rest)
    ensures var at := |RowSpelling(front)|;
            && Follows(s, 0, RowSpelling(front)) && at + 2 + |rest| == |s| && s[at] == COLON && s[at + 1] == COLON
            && Follows(s, at + 2, rest)
  {
    hide RowSpelling, Follows;
    var at := |RowSpelling(front)|;
    Whole(s);
    FollowsBoth(s, 0, RowSpelling(front), [0x3a, 0x3a] + rest);
    FollowsBoth(s, at, [0x3a, 0x3a], rest);
    FollowsAt(s, at, [0x3a, 0x3a], 0);
    FollowsAt(s, at, [0x3a, 0x3a], 1);
  }

  /** The words in front of the gap. */
  lemma FrontRead(s: Bytes, at: nat, front: seq<Numeral>)
    requires RowOk(front) && |front| <= 8 && at == |RowSpelling(front)| && Follows(s, 0, RowSpelling(front))
    requires at + 2 <= |s| && s[at] == COLON && s[at + 1] == COLON
    ensures V6From(s, 0, [], [], false) == V6From(s, at, [] + RowWords(front), [], false)
  {
    hide NumeralText, NumeralOk, NumberOf, Follows, V6From, RowSpelling, RowOk;
    RowStart(front);
    RowWordsIs(front);
    if front != [] { RowRead(s, 0, front, [], [], false); } else { assert [] + RowWords(front) == []; }
  }

  /** What is left of a text from a place on: words, and a gap if there was none yet. */
  ghost predicate Left(s: Bytes, i: nat, x: V6Syntax, gap: bool) {
    && RowOk(x.front) && RowOk(x.back) && (!x.gap ==> x.back == []) && (gap ==> !x.gap)
    && (x.colon ==> (if x.gap then x.back else x.front) != [])
    && Follows(s, i, V6Spelling(x)) && i + |V6Spelling(x)| == |s|
  }

  lemma NothingLeft(s: Bytes, gap: bool) returns (x: V6Syntax)
    ensures Left(s, |s|, x, gap) && x.front == [] && x.back == []
  {
    x := V6Syntax([], false, [], false);
  }

  lemma GapLeft(s: Bytes, i: nat, y: V6Syntax) returns (x: V6Syntax)
    requires i + 2 <= |s| && s[i] == COLON && s[i + 1] == COLON && Left(s, i + 2, y, true)
    ensures Left(s, i, x, false) && x.front == [] && x.back == y.front
  {
    hide NumeralText, NumeralOk, NumberOf, RowSpelling, RowOk;
    x := V6Syntax([], true, y.front, y.colon);
    var rest := RowSpelling(y.front) + ColonIf(y.colon);
    assert RowSpelling([]) == [] && [] + rest == rest && RowOk([]) by { RowStart([]); }
    assert V6Spelling(y) == rest;
    assert V6Spelling(x) == [0x3a, 0x3a] + rest;
    assert s[i..i + 2] == [0x3a, 0x3a];
    Joins(s, i, [0x3a, 0x3a], rest);
  }

  /** What a text of this form starts with. */
  lemma LeftStarts(s: Bytes, i: nat, y: V6Syntax, gap: bool)
    requires Left(s, i, y, gap)
    ensures i == |s| ==> y == V6Syntax([], false, [], false)
    ensures i < |s| && s[i] != COLON ==> y.front != []
    ensures i < |s| && s[i] == COLON ==> y.front == [] && y.gap
  {
    hide NumeralText, NumeralOk, NumberOf, RowSpelling;
    RowStart(y.front);
    RowStart(y.back);
    if i < |s| { FollowsAt(s, i, V6Spelling(y), 0); }
  }

  /** A word in front of what is left. */
  lemma WordLeft(s: Bytes, i: nat, n: Numeral, e: nat, j: nat, y: V6Syntax, gap: bool) returns (x: V6Syntax)
    requires WordOk(n) && Follows(s, i, NumeralText(n)) && e == i + |NumeralText(n)| <= |s|
    requires (e == |s| || s[e] == COLON) && j == if Ch(s, e) == COLON && Ch(s, e + 1) != COLON then e + 1 else e
    requires Left(s, j, y, gap)
    ensures Left(s, i, x, gap) && |x.front| == 1 + |y.front| && x.back == y.back
  {
    hide NumeralText, NumeralOk, NumberOf, Follows, WordOk, V6Spelling, RowSpelling;
    LeftStarts(s, j, y, gap);
    var t := NumeralText(n);
    if j == e {
      x := y.(front := [n]);
      OneWordSpelling(n, y);
      Joins(s, i, t, V6Spelling(y));
    } else if j == |s| {
      x := V6Syntax([n], false, [], true);
      LastWordSpelling(n);
      Nothing(s);
      OneByteJoined(s, e, 0x3a, []);
      Joins(s, i, t, [0x3a]);
    } else {
      x := y.(front := [n] + y.front);
      FirstWordSpelling(n, y);
      OneByteJoined(s, e, 0x3a, V6Spelling(y));
      Joins(s, i, t, [0x3a] + V6Spelling(y));
    }
  }

  lemma OneWordSpelling(n: Numeral, y: V6Syntax)
    requires y.front == []
    ensures V6Spelling(y.(front := [n])) == NumeralText(n) + V6Spelling(y)
  {
    hide NumeralText;
    assert RowSpelling([n]) == NumeralText(n) && RowSpelling([]) == [];
  }

  lemma LastWordSpelling(n: Numeral)
    ensures V6Spelling(V6Syntax([n], false, [], true)) == NumeralText(n) + [0x3a]
  {
    hide NumeralText;
    assert RowSpelling([n]) == NumeralText(n) && RowSpelling([]) == [];
  }

  lemma FirstWordSpelling(n: Numeral, y: V6Syntax)
    requires y.front != []
    ensures V6Spelling(y.(front := [n] + y.front)) == NumeralText(n) + ([0x3a] + V6Spelling(y))
  {
    hide NumeralText;
    assert ([n] + y.front)[1..] == y.front;
    assert RowSpelling([n] + y.front) == NumeralText(n) + ([0x3a] + RowSpelling(y.front));
  }

  lemma Nothing(s: Bytes)
    ensures Follows(s, |s|, [])
  {}

  lemma {:induction false} V6Left(s: Bytes, i: nat, head: Words, tail: Words, gap: bool) returns (x: V6Syntax)
    requires i <= |s| && V6From(s, i, head, tail, gap).Some? && |head| + |tail| <= 8
    ensures Left(s, i, x, gap) && |head| + |tail| + |x.front| + |x.back| <= 8
    decreases |s| - i
  {
    hide Strtol, NumeralText, NumeralOk, NumberOf, Assemble, Follows, Left;
    if i == |s| {
      x := NothingLeft(s, gap);
    } else if !gap && s[i] == COLON && Ch(s, i + 1) == COLON {
      var y := V6Left(s, i + 2, head, tail, true);
      x := GapLeft(s, i, y);
    } else {
      var n := StrtolSpelled(s, i, 16);
      var w, e := NumberOf(n, 16), i + |NumeralText(n)|;
      var j := if Ch(s, e) == COLON && Ch(s, e + 1) != COLON then e + 1 else e;
      var y := V6Left(s, j, if gap then head else head + [w], if gap then tail + [w] else tail, gap);
      x := WordLeft(s, i, n, e, j, y, gap);
    }
  }

  lemma V6Iff(s: Bytes, ws: Words)
    ensures V6From(s, 0, [], [], false) == Some(ws) <==> exists x :: V6Ok(x) && s == V6Spelling(x) && ws == V6Words(x)
  {
    hide V6From, NumeralText, NumeralOk, NumberOf, RowSpelling, RowOk, V6Words, V6Spelling;
    if V6From(s, 0, [], [], false).Some? {
      var x := V6Left(s, 0, [], [], false);
      assert s[0..|s|] == s;
      V6Read(s, x);
    }
    forall x | V6Ok(x) && s == V6Spelling(x) ensures V6From(s, 0, [], [], false) == Some(V6Words(x)) {
      V6Read(s, x);
    }
  }

  // ----- Addresses -----

  datatype HostSyntax = V4Host(ns: seq<Numeral>) | V6Host(x: V6Syntax)

  predicate HostOk(h: HostSyntax) {
    match h
    case V4Host(ns) => |ns| == 4 && V4Ok(ns)
    case V6Host(x) => V6Ok(x)
  }

  function HostSpelling(h: HostSyntax): Bytes {
    match h
    case V4Host(ns) => V4Spelling(ns)
    case V6Host(x) => V6Spelling(x)
  }

  function HostMeans(h: HostSyntax): (bool, Bytes)
    requires HostOk(h)
  {
    match h
    case V4Host(ns) => (false, seq(12, _ => 0) + V4Bytes(ns))
    case V6Host(x) => (true, BytesOf(V6Words(x)))
  }

  lemma NumeralLacks(n: Numeral, base: nat)
    requires Base(base) && NumeralOk(n, base)
    ensures 0x2e !in NumeralText(n) && 0x2f !in NumeralText(n)
  {
    forall i | 0 <= i < |n.digits| ensures n.digits[i] != 0x2e && n.digits[i] != 0x2f {}
  }

  lemma {:induction false} RowLacks(ns: seq<Numeral>)
    requires RowOk(ns)
    ensures 0x2e !in RowSpelling(ns) && 0x2f !in RowSpelling(ns)
  {
    hide NumeralText, NumeralOk, NumberOf;
    if ns != [] {
      assert WordOk(ns[0]);
      NumeralLacks(ns[0], 16);
      RowLacks(ns[1..]);
    }
  }

  lemma {:induction false} DotsLack(ns: seq<Numeral>)
    requires V4Ok(ns)
    ensures 0x2f !in V4Spelling(ns) && (|ns| > 1 ==> 0x2e in V4Spelling(ns))
  {
    hide NumeralText, NumeralOk, NumberOf;
    if ns != [] {
      assert ByteOk(ns[0]);
      NumeralLacks(ns[0], 10);
      DotsLack(ns[1..]);
    }
  }

  lemma HostLacks(h: HostSyntax)
    requires HostOk(h)
    ensures 0x2f !in HostSpelling(h) && (0x2e in HostSpelling(h) <==> h.V4Host?)
  {
    hide RowSpelling, RowOk, V4Ok, V4Spelling;
    match h
    case V4Host(ns) => DotsLack(ns);
    case V6Host(x) =>
      RowLacks(x.front);
      RowLacks(x.back);
  }

  lemma HostRead(h: HostSyntax)
    requires HostOk(h)
    ensures Host(HostSpelling(h)) == Some(HostMeans(h))
  {
    hide V4From, V6From, V6Spelling, V4Spelling, V6Ok, V4Ok, BytesOf, V6Words, V4Bytes;
    var t := HostSpelling(h);
    Whole(t);
    HostLacks(h);
    match h
    case V4Host(ns) =>
      V4Read(t, 0, ns, []);
      assert [] + V4Bytes(ns) == V4Bytes(ns);
    case V6Host(x) =>
      if V4From(t, 0, 0, []).Some? {
        var ns := V4Spelled(t, 0, 0, []);
        HostLacks(V4Host(ns));
        assert false;
      }
      V6Read(t, x);
  }

  lemma HostSpelled(t: Bytes) returns (h: HostSyntax)
    requires Host(t).Some?
    ensures HostOk(h) && t == HostSpelling(h)
  {
    hide V4From, V6From, V6Spelling, V4Spelling, V6Ok, V4Ok, BytesOf, V6Words, V4Bytes;
    if V4From(t, 0, 0, []).Some? {
      var ns := V4Spelled(t, 0, 0, []);
      assert t[0..|t|] == t;
      h := V4Host(ns);
    } else {
      var ws := V6From(t, 0, [], [], false).value;
      V6Iff(t, ws);
      var x :| V6Ok(x) && t == V6Spelling(x) && ws == V6Words(x);
      h := V6Host(x);
    }
  }

  /** A host, perhaps with a slash and the length of the prefix. */
  datatype Syntax = Syntax(host: HostSyntax, prefix: Option<Numeral>)

  predicate SyntaxOk(x: Syntax) {
    && HostOk(x.host)
    && (x.prefix.Some? ==> NumeralOk(x.prefix.value, 10)
                           && 0 <= NumberOf(x.prefix.value, 10) <= if x.host.V4Host? then 32 else 128)
  }

  function Spelling(x: Syntax): Bytes {
    HostSpelling(x.host) + if x.prefix.Some? then [0x2f] + NumeralText(x.prefix.value) else []
  }

  function AddressOf(x: Syntax): Address
    requires SyntaxOk(x)
  {
    var full: int := if x.host.V4Host? then 32 else 128;
    Address(HostMeans(x.host).0, if x.prefix.Some? then NumberOf(x.prefix.value, 10) else full, HostMeans(x.host).1)
  }

  lemma PrefixIff(t: Bytes)
    ensures forall p :: NumeralOk(p, 10) && t == NumeralText(p) && 0 <= NumberOf(p, 10) <= 128 ==>
              PrefixOf(t) == Some(NumberOf(p, 10))
    ensures PrefixOf(t).Some? ==>
              exists p :: NumeralOk(p, 10) && t == NumeralText(p) && PrefixOf(t) == Some(NumberOf(p, 10))
  {
    hide NumeralText, NumeralOk, NumberOf, Strtol;
    Whole(t);
    forall p | NumeralOk(p, 10) && t == NumeralText(p) && 0 <= NumberOf(p, 10) <= 128
      ensures PrefixOf(t) == Some(NumberOf(p, 10))
    {
      StrtolRead(t, 0, p, 10);
    }
    if PrefixOf(t).Some? {
      var p := StrtolSpelled(t, 0, 10);
      assert t[0..|t|] == t;
    }
  }

  lemma CreateRead(x: Syntax)
    requires SyntaxOk(x) && 2 <= |Spelling(x)| <= 43
    ensures Create(Spelling(x)) == Some(AddressOf(x))
  {
    hide Host, HostMeans, HostSpelling, PrefixOf, NumeralText, NumeralOk, NumberOf, HostOk;
    var s, host := Spelling(x), HostSpelling(x.host);
    var more := if x.prefix.Some? then [0x2f] + NumeralText(x.prefix.value) else [];
    HostLacks(x.host);
    HostRead(x.host);
    HostVersion(x.host);
    SlashFound(host, more);
    assert s[..|host|] == host;
    if x.prefix.Some? {
      assert s[|host| + 1..] == NumeralText(x.prefix.value);
      PrefixIff(NumeralText(x.prefix.value));
    }
  }

  lemma HostVersion(h: HostSyntax)
    requires HostOk(h)
    ensures HostMeans(h).0 == h.V6Host?
  {}

  lemma CreateSpelled(s: Bytes) returns (x: Syntax)
    requires Create(s).Some?
    ensures 2 <= |s| <= 43 && SyntaxOk(x) && s == Spelling(x)
  {
    hide Host, HostMeans, HostSpelling, PrefixOf, NumeralText, NumeralOk, NumberOf, HostOk;
    var at := SlashAt(s);
    var h := HostSpelled(s[..at]);
    HostRead(h);
    HostVersion(h);
    if at == |s| {
      x := Syntax(h, None);
    } else {
      var t := s[at + 1..];
      PrefixIff(t);
      var p :| NumeralOk(p, 10) && t == NumeralText(p) && PrefixOf(t) == Some(NumberOf(p, 10));
      x := Syntax(h, Some(p));
      assert s == s[..at] + ([0x2f] + t);
    }
  }

  /** The parser accepts the texts of 2 to 43 bytes that spell an address, and gives that address. */
  lemma CreateIff(s: Bytes, a: Address)
    ensures Create(s) == Some(a) <==>
            2 <= |s| <= 43 && exists x :: SyntaxOk(x) && s == Spelling(x) && a == AddressOf(x)
  {
    hide Create, AddressOf, Spelling, SyntaxOk;
    if Create(s) == Some(a) {
      var x := CreateSpelled(s);
      CreateRead(x);
    }
    if 2 <= |s| <= 43 {
      forall x | SyntaxOk(x) && s == Spelling(x) ensures Create(s) == Some(AddressOf(x)) { CreateRead(x); }
    }
  }

  lemma OneDigit(d: Byte, base: nat) returns (n: Numeral)
    requires 0x30 <= d <= 0x39 && Base(base)
    ensures NumeralOk(n, base) && NumeralText(n) == [d] && NumberOf(n, base) == d - 0x30
  {
    n := Numeral([], [], [], [d]);
    assert n.digits[..0] == [] && Worth([], base) == 0;
    assert Worth(n.digits, base) == d - 0x30;
  }

  /** `1:2`, which has no gap, is taken for the two words and zeros behind them. */
  lemma ShortText()
    ensures Create([0x31, 0x3a, 0x32]) == Some(Address(true, 128, [0, 1, 0, 2] + seq(12, _ => 0)))
  {
    hide Create, NumeralText, NumeralOk, NumberOf;
    var one := OneDigit(0x31, 16);
    var two := OneDigit(0x32, 16);
    var ns := [one, two];
    assert WordOk(one) && WordOk(two) && RowOk(ns) && ns[1..] == [two];
    assert RowSpelling(ns[1..]) == [0x32] && RowSpelling(ns) == [0x31] + ([0x3a] + [0x32]);
    assert RowWords(ns[1..]) == [2] && RowWords(ns) == [1, 2];
    var x := V6Syntax(ns, false, [], false);
    assert V6Spelling(x) == [0x31, 0x3a, 0x32];
    var ws := V6Words(x);
    assert ws == [1, 2, 0, 0, 0, 0, 0, 0];
    assert BytesOf(ws) == [0, 1, 0, 2] + seq(12, _ => 0);
    var all := Syntax(V6Host(x), None);
    assert Spelling(all) == [0x31, 0x3a, 0x32];
    CreateRead(all);
  }
}
