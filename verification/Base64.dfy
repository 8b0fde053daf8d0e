/**
 Base64 without padding (base64.c), with either of the alphabets of sections 4 and 5
 of RFC 4648. Bytes and characters are 8-bit words, and the shifts are those of the
 program.
 */
module Base64 {
  import opened Common

  type Word = bv8

  /** The table `alphabet`: letters, digits, and `+/` or `-_` by the kind of alphabet. */
  function Enc1(val: Word, urlsafe: bool): Word {
    var pos := val & 0x3f;
    if pos < 26 then 0x41 + pos
    else if pos < 52 then 0x61 + (pos - 26)
    else if pos < 62 then 0x30 + (pos - 52)
    else if urlsafe then (if pos == 62 then 0x2d else 0x5f)
    else if pos == 62 then 0x2b else 0x2f
  }

  /** Both alphabets decode; the end of the table counts as a 65th character, and anything else gives all ones. */
  function Dec1(c: Word): Word {
    if 0x41 <= c <= 0x5a then c - 0x41
    else if 0x61 <= c <= 0x7a then c - 0x61 + 26
    else if 0x30 <= c <= 0x39 then c - 0x30 + 52
    else if c == 0x2b || c == 0x2d then 62
    else if c == 0x2f || c == 0x5f then 63
    else if c == 0 then 64
    else 0xff
  }

  function EncodedLen(size: nat): nat {
    4 * (size / 3) + if size % 3 > 0 then size % 3 + 1 else 0
  }

  function DecodedSize(len: nat): nat {
    3 * (len / 4) + if len % 4 > 1 then len % 4 - 1 else len % 4
  }

  function Enc3(a: Word, b: Word, c: Word, urlsafe: bool): (r: seq<Word>)
    ensures |r| == 4
  {
    [Enc1(a >> 2, urlsafe), Enc1((a << 4) | (b >> 4), urlsafe), Enc1((b << 2) | (c >> 6), urlsafe), Enc1(c, urlsafe)]
  }

  function Dec4(a: Word, b: Word, c: Word, d: Word): (r: seq<Word>)
    ensures |r| == 3
  {
    [(Dec1(a) << 2) | (Dec1(b) >> 4), (Dec1(b) << 4) | (Dec1(c) >> 2), (Dec1(c) << 6) | Dec1(d)]
  }

  /** Groups of three bytes become four characters, and one or two left over become two or three. */
  function Encoded(d: seq<Word>, urlsafe: bool): (r: seq<Word>) {
    if |d| >= 3 then Enc3(d[0], d[1], d[2], urlsafe) + Encoded(d[3..], urlsafe)
    else if |d| == 2 then Enc3(d[0], d[1], 0, urlsafe)[..3]
    else if |d| == 1 then Enc3(d[0], 0, 0, urlsafe)[..2]
    else []
  }

  function Decoded(e: seq<Word>): seq<Word> {
    if |e| >= 4 then Dec4(e[0], e[1], e[2], e[3]) + Decoded(e[4..])
    else if |e| == 3 then Dec4(e[0], e[1], e[2], 0)[..2]
    else if |e| == 2 then Dec4(e[0], e[1], 0, 0)[..1]
    else []
  }

  // ----- What the characters stand for -----

  const UPPER := "ABCDEFGHIJKLMNOPQRSTUVWXYZ"
  const LOWER := "abcdefghijklmnopqrstuvwxyz"
  const DIGITS := "0123456789"

  /** Tables 1 and 2 of RFC 4648. */
  function Alphabet(urlsafe: bool): (a: string)
    ensures |a| == 64
  {
    UPPER + LOWER + DIGITS + if urlsafe then "-_" else "+/"
  }

  /** The `n`-th bit of a byte string, from the highest one of its first byte; zero behind its end. */
  function Bit(d: seq<Word>, n: nat): Word {
    if n / 8 < |d| then (d[n / 8] >> (7 - n % 8)) & 1 else 0
  }

  function Sextet(d: seq<Word>, i: nat): (v: Word)
    ensures v < 64
  {
    (Bit(d, 6 * i) << 5) | (Bit(d, 6 * i + 1) << 4) | (Bit(d, 6 * i + 2) << 3)
    | (Bit(d, 6 * i + 3) << 2) | (Bit(d, 6 * i + 4) << 1) | Bit(d, 6 * i + 5)
  }

  lemma Letters(i: nat)
    ensures i < 26 ==> UPPER[i] as nat == 0x41 + i && LOWER[i] as nat == 0x61 + i
    ensures i < 10 ==> DIGITS[i] as nat == 0x30 + i
  {}

  lemma LetterIs(val: Word, urlsafe: bool)
    requires val < 64
    ensures (val as nat) < 64 && Alphabet(urlsafe)[val as nat] as nat == Enc1(val, urlsafe) as nat
    ensures Dec1(Enc1(val, urlsafe)) == val
  {
    var i := val as nat;
    assert val & 0x3f == val;
    if i < 26 { Letters(i); }
    else if i < 52 { Letters(i - 26); }
    else if i < 62 { Letters(i - 52); }
  }

  /** The characters of either alphabet, and no others, have a value; anything else counts as NUL or as all ones. */
  lemma ValueIs(c: Word)
    ensures Dec1(c) < 64 ==> Enc1(Dec1(c), false) == c || Enc1(Dec1(c), true) == c
    ensures Dec1(c) >= 64 ==> Dec1(c) == if c == 0 then 64 else 0xff
  {}

  function ByteAt(d: seq<Word>, k: nat): Word {
    if k < |d| then d[k] else 0
  }

  lemma Sextets(d: seq<Word>)
    ensures var a, b, c := ByteAt(d, 0), ByteAt(d, 1), ByteAt(d, 2);
            && Sextet(d, 0) == (a >> 2) & 0x3f && Sextet(d, 1) == ((a << 4) | (b >> 4)) & 0x3f
            && Sextet(d, 2) == ((b << 2) | (c >> 6)) & 0x3f && Sextet(d, 3) == c & 0x3f
  {
    hide Sextet;
    FirstSextet(d);
    SecondSextet(d);
    ThirdSextet(d);
    FourthSextet(d);
  }

  lemma FirstSextet(d: seq<Word>)
    ensures Sextet(d, 0) == (ByteAt(d, 0) >> 2) & 0x3f
  {}

  lemma SecondSextet(d: seq<Word>)
    ensures Sextet(d, 1) == ((ByteAt(d, 0) << 4) | (ByteAt(d, 1) >> 4)) & 0x3f
  {}

  lemma ThirdSextet(d: seq<Word>)
    ensures Sextet(d, 2) == ((ByteAt(d, 1) << 2) | (ByteAt(d, 2) >> 6)) & 0x3f
  {}

  lemma FourthSextet(d: seq<Word>)
    ensures Sextet(d, 3) == ByteAt(d, 2) & 0x3f
  {}

  lemma BitBehind(d: seq<Word>, n: nat)
    requires |d| >= 3 && n >= 24
    ensures Bit(d, n) == Bit(d[3..], n - 24)
  {
    assert n / 8 - 3 == (n - 24) / 8 && n % 8 == (n - 24) % 8;
    if n / 8 < |d| { assert d[n / 8] == d[3..][(n - 24) / 8]; }
  }

  lemma SextetBehind(d: seq<Word>, i: nat)
    requires |d| >= 3 && i >= 4
    ensures Sextet(d, i) == Sextet(d[3..], i - 4)
  {
    hide Bit;
    var n := 6 * i;
    BitBehind(d, n);
    BitBehind(d, n + 1);
    BitBehind(d, n + 2);
    BitBehind(d, n + 3);
    BitBehind(d, n + 4);
    BitBehind(d, n + 5);
    assert 6 * (i - 4) == n - 24;
  }

  lemma Masked(v: Word, urlsafe: bool)
    ensures Enc1(v, urlsafe) == Enc1(v & 0x3f, urlsafe)
  {}

  /** Each character stands for the next six bits. */
  lemma {:induction false} EncodedIs(d: seq<Word>, urlsafe: bool, i: nat)
    requires i < |Encoded(d, urlsafe)|
    ensures Encoded(d, urlsafe)[i] as nat == Alphabet(urlsafe)[Sextet(d, i) as nat] as nat
    decreases |d|
  {
    hide Enc1, Sextet, Alphabet, ByteAt;
    if i < 4 {
      FirstGroup(d, urlsafe, i);
      LetterIs(Sextet(d, i), urlsafe);
    } else {
      SextetBehind(d, i);
      EncodedIs(d[3..], urlsafe, i - 4);
    }
  }

  lemma FirstGroup(d: seq<Word>, urlsafe: bool, i: nat)
    requires i < |Encoded(d, urlsafe)| && i < 4
    ensures Encoded(d, urlsafe)[i] == Enc1(Sextet(d, i), urlsafe)
  {
    hide Enc1, Sextet, Enc3, ByteAt;
    FirstFour(d, urlsafe, i);
    Sextets(d);
    Enc3Is(ByteAt(d, 0), ByteAt(d, 1), ByteAt(d, 2), urlsafe);
  }

  lemma FirstFour(d: seq<Word>, urlsafe: bool, i: nat)
    requires i < |Encoded(d, urlsafe)| && i < 4
    ensures Encoded(d, urlsafe)[i] == Enc3(ByteAt(d, 0), ByteAt(d, 1), ByteAt(d, 2), urlsafe)[i]
  {
    hide Enc1, Enc3;
  }

  lemma Enc3Is(a: Word, b: Word, c: Word, urlsafe: bool)
    ensures Enc3(a, b, c, urlsafe) ==
            [Enc1((a >> 2) & 0x3f, urlsafe), Enc1(((a << 4) | (b >> 4)) & 0x3f, urlsafe),
             Enc1(((b << 2) | (c >> 6)) & 0x3f, urlsafe), Enc1(c & 0x3f, urlsafe)]
  {
    hide Enc1;
    Masked(a >> 2, urlsafe);
    Masked((a << 4) | (b >> 4), urlsafe);
    Masked((b << 2) | (c >> 6), urlsafe);
    Masked(c, urlsafe);
  }

  lemma GroupBack(w: Word, x: Word, y: Word, z: Word)
    requires w < 64 && x < 64 && y < 64 && z < 64
    ensures var d := [(w << 2) | (x >> 4), (x << 4) | (y >> 2), (y << 6) | z];
            && Sextet(d, 0) == w && Sextet(d, 1) == x && Sextet(d, 2) == y && Sextet(d, 3) == z
            && Sextet(d[..2], 0) == w && Sextet(d[..2], 1) == x && Sextet(d[..2], 2) == y & 0x3c
            && Sextet(d[..1], 0) == w && Sextet(d[..1], 1) == x & 0x30
  {
    var d := [(w << 2) | (x >> 4), (x << 4) | (y >> 2), (y << 6) | z];
    Sextets(d);
    Sextets(d[..2]);
    Sextets(d[..1]);
  }

  lemma SameBit(d: seq<Word>, r: seq<Word>, n: nat)
    requires |d| == 3 && n < 24
    ensures Bit(d + r, n) == Bit(d, n)
  {
    assert n / 8 < 3 && (d + r)[n / 8] == d[n / 8];
  }

  lemma SameBits(d: seq<Word>, r: seq<Word>, i: nat)
    requires |d| == 3 && i < 4
    ensures Sextet(d + r, i) == Sextet(d, i)
  {
    hide Bit;
    var n := 6 * i;
    SameBit(d, r, n);
    SameBit(d, r, n + 1);
    SameBit(d, r, n + 2);
    SameBit(d, r, n + 3);
    SameBit(d, r, n + 4);
    SameBit(d, r, n + 5);
  }

  /**
   Of each character of either alphabet, decoding takes six bits; of the last one of
   a broken group, as many as fill a byte.
   */
  lemma {:induction false} DecodedIs(e: seq<Word>, i: nat)
    requires i < |e| && forall k :: 0 <= k < |e| ==> Dec1(e[k]) < 64
    ensures i + 1 < |e| || |e| % 4 == 0 ==> Sextet(Decoded(e), i) == Dec1(e[i])
    ensures i + 1 == |e| && |e| % 4 == 3 ==> Sextet(Decoded(e), i) == Dec1(e[i]) & 0x3c
    ensures i + 1 == |e| && |e| % 4 == 2 ==> Sextet(Decoded(e), i) == Dec1(e[i]) & 0x30
    decreases |e|
  {
    hide Dec1, Sextet, Dec4, Decoded;
    if i >= 4 {
      DecodedBehind(e, i);
      DecodedIs(e[4..], i - 4);
    } else if |e| >= 4 {
      FullBack(e, i);
    } else if |e| >= 2 {
      PartBack(e);
    }
  }

  lemma DecodedBehind(e: seq<Word>, i: nat)
    requires |e| >= 4 && i >= 4
    ensures Sextet(Decoded(e), i) == Sextet(Decoded(e[4..]), i - 4)
  {
    hide Sextet, Dec4;
    var d := Dec4(e[0], e[1], e[2], e[3]);
    SextetBehind(d + Decoded(e[4..]), i);
    assert (d + Decoded(e[4..]))[3..] == Decoded(e[4..]);
  }

  lemma FullBack(e: seq<Word>, i: nat)
    requires |e| >= 4 && i < 4 && forall k :: 0 <= k < |e| ==> Dec1(e[k]) < 64
    ensures Sextet(Decoded(e), i) == Dec1(e[i])
  {
    hide Dec1, Sextet, Dec4;
    var d := Dec4(e[0], e[1], e[2], e[3]);
    Dec4Back(e[0], e[1], e[2], e[3]);
    SameBits(d, Decoded(e[4..]), i);
  }

  lemma Dec4Back(a: Word, b: Word, c: Word, d: Word)
    requires Dec1(a) < 64 && Dec1(b) < 64 && Dec1(c) < 64 && Dec1(d) < 64
    ensures var r := Dec4(a, b, c, d);
            && |r| == 3 && Sextet(r, 0) == Dec1(a) && Sextet(r, 1) == Dec1(b)
            && Sextet(r, 2) == Dec1(c) && Sextet(r, 3) == Dec1(d)
  {
    hide Dec1, Sextet;
    GroupBack(Dec1(a), Dec1(b), Dec1(c), Dec1(d));
  }

  function OneByte(w: Word, x: Word): seq<Word> {
    [(w << 2) | (x >> 4)]
  }

  function TwoBytes(w: Word, x: Word, y: Word): seq<Word> {
    [(w << 2) | (x >> 4), (x << 4) | (y >> 2)]
  }

  /** What is left of three or two characters. */
  lemma LastBack(a: Word, b: Word, c: Word, d: Word)
    requires Dec1(a) < 64 && Dec1(b) < 64
    ensures var r := Dec4(a, b, c, d)[..1];
            Sextet(r, 0) == Dec1(a) && Sextet(r, 1) == Dec1(b) & 0x30
    ensures Dec1(c) < 64 ==>
              var r := Dec4(a, b, c, d)[..2];
              Sextet(r, 0) == Dec1(a) && Sextet(r, 1) == Dec1(b) && Sextet(r, 2) == Dec1(c) & 0x3c
  {
    hide Dec1, Sextet, Dec4, OneByte, TwoBytes;
    Dec4Front(a, b, c, d);
    OneLeft(Dec1(a), Dec1(b));
    if Dec1(c) < 64 { TwoLeft(Dec1(a), Dec1(b), Dec1(c)); }
  }

  lemma OneLeft(w: Word, x: Word)
    requires w < 64 && x < 64
    ensures Sextet(OneByte(w, x), 0) == w && Sextet(OneByte(w, x), 1) == x & 0x30
  {
    hide Sextet;
    GroupBack(w, x, 0, 0);
    var g := [(w << 2) | (x >> 4), (x << 4) | (0 >> 2), (0 << 6) | 0];
    assert g[..1] == OneByte(w, x);
  }

  lemma TwoLeft(w: Word, x: Word, y: Word)
    requires w < 64 && x < 64 && y < 64
    ensures var r := TwoBytes(w, x, y); Sextet(r, 0) == w && Sextet(r, 1) == x && Sextet(r, 2) == y & 0x3c
  {
    hide Sextet;
    GroupBack(w, x, y, 0);
    var g := [(w << 2) | (x >> 4), (x << 4) | (y >> 2), (y << 6) | 0];
    assert g[..2] == TwoBytes(w, x, y);
  }

  lemma Dec4Front(a: Word, b: Word, c: Word, d: Word)
    ensures var r := Dec4(a, b, c, d);
            r[..1] == OneByte(Dec1(a), Dec1(b)) && r[..2] == TwoBytes(Dec1(a), Dec1(b), Dec1(c))
  {
    hide Dec1;
  }

  lemma PartBack(e: seq<Word>)
    requires 2 <= |e| <= 3 && forall k :: 0 <= k < |e| ==> Dec1(e[k]) < 64
    ensures Sextet(Decoded(e), 0) == Dec1(e[0])
    ensures |e| == 3 ==> Sextet(Decoded(e), 1) == Dec1(e[1]) && Sextet(Decoded(e), 2) == Dec1(e[2]) & 0x3c
    ensures |e| == 2 ==> Sextet(Decoded(e), 1) == Dec1(e[1]) & 0x30
  {
    hide Dec1, Sextet, Dec4;
    LastBack(e[0], e[1], if |e| == 3 then e[2] else 0, 0);
  }

  // ----- Round trip -----

  lemma DecEnc1(val: Word, urlsafe: bool)
    ensures Dec1(Enc1(val, urlsafe)) == val & 0x3f && Enc1(val, urlsafe) != 0
  {}

  lemma DecEnc3(a: Word, b: Word, c: Word, urlsafe: bool)
    ensures var e := Enc3(a, b, c, urlsafe); Dec4(e[0], e[1], e[2], e[3]) == [a, b, c]
  {
    DecEnc1(a >> 2, urlsafe);
    DecEnc1((a << 4) | (b >> 4), urlsafe);
    DecEnc1((b << 2) | (c >> 6), urlsafe);
    DecEnc1(c, urlsafe);
    Bits(a, b, c);
  }

  lemma Bits(a: Word, b: Word, c: Word)
    ensures var w, x, y, z := (a >> 2) & 0x3f, ((a << 4) | (b >> 4)) & 0x3f, ((b << 2) | (c >> 6)) & 0x3f, c & 0x3f;
            (w << 2) | (x >> 4) == a && (x << 4) | (y >> 2) == b && (y << 6) | z == c
  {}

  /** Decoding undoes encoding, in either alphabet. */
  lemma {:induction false} RoundTrip(d: seq<Word>, urlsafe: bool)
    ensures Decoded(Encoded(d, urlsafe)) == d
  {
    if |d| >= 3 {
      DecEnc3(d[0], d[1], d[2], urlsafe);
      RoundTrip(d[3..], urlsafe);
      var e := Enc3(d[0], d[1], d[2], urlsafe);
      assert (e + Encoded(d[3..], urlsafe))[4..] == Encoded(d[3..], urlsafe);
    } else if |d| == 2 {
      DecEnc3(d[0], d[1], 0, urlsafe);
    } else if |d| == 1 {
      DecEnc3(d[0], 0, 0, urlsafe);
    }
  }

  /** The lengths are those announced, the size comes back, and the text is a C string. */
  lemma {:induction false} Lengths(d: seq<Word>, urlsafe: bool)
    ensures |Encoded(d, urlsafe)| == EncodedLen(|d|) && DecodedSize(EncodedLen(|d|)) == |d|
    ensures forall i :: 0 <= i < |Encoded(d, urlsafe)| ==> Encoded(d, urlsafe)[i] != 0
  {
    if |d| >= 3 { Lengths(d[3..], urlsafe); }
  }

  lemma {:induction false} DecodedLength(e: seq<Word>)
    ensures |Decoded(e)| == 3 * (|e| / 4) + if |e| % 4 > 1 then |e| % 4 - 1 else 0
    ensures |Decoded(e)| <= DecodedSize(|e|) && (|Decoded(e)| == DecodedSize(|e|) <==> |e| % 4 != 1)
  {
    if |e| >= 4 { DecodedLength(e[4..]); }
  }

  /** Writing one group, from `o` on. */
  method Put(out: array<Word>, o: nat, group: seq<Word>)
    requires o + |group| <= out.Length
    modifies out
    ensures out[..o + |group|] == old(out[..o]) + group
    ensures forall i :: o + |group| <= i < out.Length ==> out[i] == old(out[i])
  {
    forall i | 0 <= i < |group| { out[o + i] := group[i]; }
  }

  /** The encoding from `pos` on is a group and the encoding of what follows it. */
  lemma EncodedFrom(d: seq<Word>, pos: nat, urlsafe: bool)
    requires pos <= |d|
    ensures pos + 3 <= |d| ==>
              Encoded(d[pos..], urlsafe) ==
              Enc3(d[pos], d[pos + 1], d[pos + 2], urlsafe) + Encoded(d[pos + 3..], urlsafe)
    ensures pos + 2 == |d| ==> Encoded(d[pos..], urlsafe) == Enc3(d[pos], d[pos + 1], 0, urlsafe)[..3]
    ensures pos + 1 == |d| ==> Encoded(d[pos..], urlsafe) == Enc3(d[pos], 0, 0, urlsafe)[..2]
    ensures pos == |d| ==> Encoded(d[pos..], urlsafe) == []
  {
    if pos + 3 <= |d| { assert d[pos..][3..] == d[pos + 3..]; }
  }

  lemma DecodedFrom(e: seq<Word>, pos: nat)
    requires pos <= |e|
    ensures pos + 4 <= |e| ==>
              Decoded(e[pos..]) ==
              Dec4(e[pos], e[pos + 1], e[pos + 2], e[pos + 3]) + Decoded(e[pos + 4..])
    ensures pos + 3 == |e| ==> Decoded(e[pos..]) == Dec4(e[pos], e[pos + 1], e[pos + 2], 0)[..2]
    ensures pos + 2 == |e| ==> Decoded(e[pos..]) == Dec4(e[pos], e[pos + 1], 0, 0)[..1]
    ensures |e| < pos + 2 ==> Decoded(e[pos..]) == []
  {
    if pos + 4 <= |e| { assert e[pos..][4..] == e[pos + 4..]; }
  }

  /** PSC_Base64_encodeTo writes the encoding and a NUL, and nothing behind it. */
  method EncodeTo(enc: array<Word>, data: seq<Word>, urlsafe: bool)
    requires EncodedLen(|data|) < enc.Length
    modifies enc
    ensures enc[..EncodedLen(|data|) + 1] == Encoded(data, urlsafe) + [0]
    ensures forall i :: EncodedLen(|data|) < i < enc.Length ==> enc[i] == old(enc[i])
  {
    hide Encoded, Enc1, Enc3, EncodedLen;
    Lengths(data, urlsafe);
    ghost var all := Encoded(data, urlsafe);
    assert data[0..] == data;
    var pos, o := 0, 0;
    while |data| - pos >= 3
      invariant 0 <= pos <= |data| && 0 <= o <= |all|
      invariant all == enc[..o] + Encoded(data[pos..], urlsafe)
      invariant forall i :: o <= i < enc.Length ==> enc[i] == old(enc[i])
    {
      EncodedFrom(data, pos, urlsafe);
      Regroup(enc[..o], Enc3(data[pos], data[pos + 1], data[pos + 2], urlsafe), Encoded(data[pos + 3..], urlsafe));
      Put(enc, o, Enc3(data[pos], data[pos + 1], data[pos + 2], urlsafe));
      pos, o := pos + 3, o + 4;
    }
    o := EncodeRest(enc, o, data, pos, urlsafe);
    Put(enc, o, [0]);
  }

  /** The one or two bytes left over. */
  method EncodeRest(enc: array<Word>, o: nat, data: seq<Word>, pos: nat, urlsafe: bool) returns (end: nat)
    requires pos <= |data| < pos + 3 && o + |Encoded(data[pos..], urlsafe)| <= enc.Length
    modifies enc
    ensures o <= end <= enc.Length && enc[..end] == old(enc[..o]) + Encoded(data[pos..], urlsafe)
    ensures forall i :: end <= i < enc.Length ==> enc[i] == old(enc[i])
  {
    hide Encoded, Enc1, Enc3;
    EncodedFrom(data, pos, urlsafe);
    end := o;
    if |data| - pos == 2 {
      Put(enc, o, Enc3(data[pos], data[pos + 1], 0, urlsafe)[..3]);
      end := o + 3;
    } else if pos < |data| {
      Put(enc, o, Enc3(data[pos], 0, 0, urlsafe)[..2]);
      end := o + 2;
    }
  }

  /** PSC_Base64_decodeTo, for any text. */
  method DecodeTo(data: array<Word>, enc: seq<Word>)
    requires DecodedSize(|enc|) <= data.Length
    modifies data
    ensures |Decoded(enc)| <= data.Length && data[..|Decoded(enc)|] == Decoded(enc)
    ensures forall i :: |Decoded(enc)| <= i < data.Length ==> data[i] == old(data[i])
  {
    hide Decoded, Dec1, DecodedSize;
    DecodedLength(enc);
    ghost var all := Decoded(enc);
    assert enc[0..] == enc;
    var pos, o := 0, 0;
    while |enc| - pos >= 4
      invariant 0 <= pos <= |enc| && 0 <= o <= |all|
      invariant all == data[..o] + Decoded(enc[pos..])
      invariant forall i :: o <= i < data.Length ==> data[i] == old(data[i])
    {
      DecodedFrom(enc, pos);
      Regroup(data[..o], Dec4(enc[pos], enc[pos + 1], enc[pos + 2], enc[pos + 3]), Decoded(enc[pos + 4..]));
      Put(data, o, Dec4(enc[pos], enc[pos + 1], enc[pos + 2], enc[pos + 3]));
      pos, o := pos + 4, o + 3;
    }
    DecodedFrom(enc, pos);
    if |enc| - pos == 3 {
      Put(data, o, Dec4(enc[pos], enc[pos + 1], enc[pos + 2], 0)[..2]);
    } else if |enc| - pos == 2 {
      Put(data, o, Dec4(enc[pos], enc[pos + 1], 0, 0)[..1]);
    }
  }
}
