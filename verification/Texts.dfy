/** Places in a text, and decimal and hexadecimal numerals as printf writes and strtol reads them. */
module Texts {
  import opened Common

  /** A byte of a C string, whose end reads as NUL. */
  function Ch(s: Bytes, i: nat): Byte {
    if i < |s| then s[i] else 0
  }

  /** `t` is at `i`. */
  predicate Follows(s: Bytes, i: nat, t: Bytes) {
    i + |t| <= |s| && s[i..i + |t|] == t
  }

  lemma FollowsBoth(s: Bytes, i: nat, a: Bytes, b: Bytes)
    requires Follows(s, i, a + b)
    ensures Follows(s, i, a) && Follows(s, i + |a|, b)
  {
    var t := a + b;
    assert s[i..i + |a|] == s[i..i + |t|][..|a|] == t[..|a|] == a;
    assert s[i + |a|..i + |t|] == s[i..i + |t|][|a|..] == t[|a|..] == b;
  }

  lemma FollowsAt(s: Bytes, i: nat, t: Bytes, k: nat)
    requires Follows(s, i, t) && k < |t|
    ensures i + k < |s| && s[i + k] == t[k]
  {
    assert s[i..i + |t|][k] == t[k];
  }

  // ----- Numerals -----

  function DigitChar(n: nat): Byte
    requires n < 16
  {
    if n < 10 then 0x30 + n else 0x57 + n
  }

  /** The value of a digit of either case. */
  function Nibble(c: Byte): (r: Option<nat>)
    ensures r.Some? ==> r.value < 16
  {
    if 0x30 <= c <= 0x39 then Some(c - 0x30)
    else if 0x61 <= c <= 0x66 then Some(c - 0x57)
    else if 0x41 <= c <= 0x46 then Some(c - 0x37)
    else None
  }

  /** 0 to 9, A to F and a to f; -1 for other bytes. */
  function DigitOf(c: Byte): int {
    if 0x30 <= c <= 0x39 then c - 0x30
    else if 0x41 <= c <= 0x46 then c - 0x37
    else if 0x61 <= c <= 0x66 then c - 0x57
    else -1
  }

  lemma NibbleIsDigit(c: Byte)
    ensures Nibble(c) == if DigitOf(c) >= 0 then Some(DigitOf(c) as nat) else None
  {}

  predicate Base(base: nat) {
    base == 10 || base == 16
  }

  predicate IsDigit(c: Byte, base: nat) {
    Nibble(c).Some? && Nibble(c).value < base
  }

  function Digits(n: nat, base: nat): Bytes
    requires Base(base)
  {
    if n < base then [DigitChar(n)] else Digits(n / base, base) + [DigitChar(n % base)]
  }

  function DigitsEnd(s: Bytes, i: nat, base: nat): (r: nat)
    requires i <= |s|
    ensures i <= r <= |s|
    decreases |s| - i
  {
    if i < |s| && IsDigit(s[i], base) then DigitsEnd(s, i + 1, base) else i
  }

  function NatOf(digits: Bytes, base: nat): nat {
    if digits == [] then 0
    else
      var c := Nibble(digits[|digits| - 1]);
      base * NatOf(digits[..|digits| - 1], base) + if c.Some? then c.value else 0
  }

  lemma {:induction false} DigitsAreDigits(n: nat, base: nat)
    requires Base(base)
    ensures Digits(n, base) != [] && forall i :: 0 <= i < |Digits(n, base)| ==> IsDigit(Digits(n, base)[i], base)
  {
    if n >= base { DigitsAreDigits(n / base, base); }
  }

  /** In lower case, and without leading zeros. */
  lemma {:induction false} DigitsArePlain(n: nat, base: nat)
    requires Base(base)
    ensures forall i :: 0 <= i < |Digits(n, base)| ==>
              0x30 <= Digits(n, base)[i] <= 0x39 || 0x61 <= Digits(n, base)[i] <= 0x66
    ensures Digits(n, base) == [0x30] || (Digits(n, base) != [] && Digits(n, base)[0] != 0x30)
  {
    if n >= base { DigitsArePlain(n / base, base); }
  }

  /** Reading a numeral gives the number it was written for. */
  lemma {:induction false} DigitsValue(n: nat, base: nat)
    requires Base(base)
    ensures NatOf(Digits(n, base), base) == n
  {
    var t := Digits(n, base);
    if n < base {
      assert t[..|t| - 1] == [];
    } else {
      DigitsValue(n / base, base);
      assert t[..|t| - 1] == Digits(n / base, base);
      if base == 10 { assert n == 10 * (n / 10) + n % 10; } else { assert n == 16 * (n / 16) + n % 16; }
    }
  }

  lemma {:induction false} DigitsStop(s: Bytes, i: nat, e: nat, base: nat)
    requires i <= e <= |s| && (forall k :: i <= k < e ==> IsDigit(s[k], base)) && !IsDigit(Ch(s, e), base)
    ensures DigitsEnd(s, i, base) == e
    decreases e - i
  {
    if i < e { DigitsStop(s, i + 1, e, base); }
  }

  /** Reading stops where the numeral does. */
  lemma DigitsFound(s: Bytes, i: nat, n: nat, base: nat)
    requires Base(base) && Follows(s, i, Digits(n, base)) && !IsDigit(Ch(s, i + |Digits(n, base)|), base)
    ensures var e := i + |Digits(n, base)|;
            i < e <= |s| && DigitsEnd(s, i, base) == e && NatOf(s[i..e], base) == n && IsDigit(s[i], base)
  {
    hide Digits, NatOf;
    var t := Digits(n, base);
    DigitsAreDigits(n, base);
    DigitsValue(n, base);
    forall k | i <= k < i + |t| ensures IsDigit(s[k], base) { FollowsAt(s, i, t, k - i); }
    DigitsStop(s, i, i + |t|, base);
  }

  /** Numerals below `base` to the k have at most k digits. */
  lemma {:induction false} DigitsShort(n: nat, base: nat, k: nat)
    requires Base(base) && 0 < k && n < Power(base, k)
    ensures |Digits(n, base)| <= k
  {
    if n >= base {
      if base == 10 { assert n / 10 < Power(base, k - 1); } else { assert n / 16 < Power(base, k - 1); }
      DigitsShort(n / base, base, k - 1);
    }
  }

  function Power(base: nat, k: nat): nat {
    if k == 0 then 1 else base * Power(base, k - 1)
  }
}
