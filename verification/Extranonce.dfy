/** Extranonces: each miner gets its own part of the nonce space, and the nonce it submits is
    completed with its extranonce. */
module Extranonce {
  import opened Options
  import opened Arith
  import opened Hex

  const MAX_EXTRANONCE: nat := 65535

  // Assignment

  /** The update of the global counter. */
  function Step(val: nat): nat {
    if val < MAX_EXTRANONCE then val + 1 else 0
  }

  /** The counter after `n` assignments that take an extranonce. */
  function CounterAfter(start: nat, n: nat): nat {
    if n == 0 then start else Step(CounterAfter(start, n - 1))
  }

  class ClientHandler {
    var nextExtranonce: nat
    ghost var start: nat
    ghost var taken: nat

    ghost predicate Valid()
      reads this
    {
      start <= MAX_EXTRANONCE && nextExtranonce == CounterAfter(start, taken)
    }

    constructor ()
      ensures Valid() && start == 0 && taken == 0
    {
      nextExtranonce := 0;
      start := 0;
      taken := 0;
    }

    /** Bitmain miners get none; every other miner gets the counter's value in four hex digits. */
    method Assign(isBitmain: bool) returns (extranonce: string)
      requires Valid()
      modifies this
      ensures Valid() && start == old(start)
      ensures isBitmain ==> extranonce == "" && taken == old(taken)
      ensures !isBitmain ==> extranonce == HexFixed(CounterAfter(start, old(taken)), 4) && taken == old(taken) + 1
    {
      if isBitmain {
        return "";
      }
      extranonce := HexFixed(nextExtranonce, 4);
      nextExtranonce := Step(nextExtranonce);
      taken := taken + 1;
    }
  }

  lemma {:induction false} CounterIsModular(start: nat, n: nat)
    requires start <= MAX_EXTRANONCE
    ensures CounterAfter(start, n) == (start + n) % 65536
  {
    if n > 0 {
      CounterIsModular(start, n - 1);
      NextModular(start + n - 1);
    }
  }

  lemma NextModular(x: nat)
    ensures Step(x % 65536) == (x + 1) % 65536
  {
  }

  /** Any 65,536 consecutive assignments give pairwise distinct extranonces. */
  lemma ConsecutiveDistinct(start: nat, i: nat, j: nat)
    requires start <= MAX_EXTRANONCE && i < j < i + 65536
    ensures HexFixed(CounterAfter(start, i), 4) != HexFixed(CounterAfter(start, j), 4)
  {
    CountersDiffer(start, i, j);
    FourDigits();
    HexFixedRoundTrip(CounterAfter(start, i), 4);
    HexFixedRoundTrip(CounterAfter(start, j), 4);
  }

  lemma CountersDiffer(start: nat, i: nat, j: nat)
    requires start <= MAX_EXTRANONCE && i < j < i + 65536
    ensures CounterAfter(start, i) != CounterAfter(start, j)
    ensures CounterAfter(start, i) < 65536 && CounterAfter(start, j) < 65536
  {
    CounterIsModular(start, i);
    CounterIsModular(start, j);
    ResiduesDiffer(start + i, start + j);
  }

  lemma ResiduesDiffer(a: nat, b: nat)
    requires a < b < a + 65536
    ensures a % 65536 != b % 65536
  {
  }

  lemma FourDigits()
    ensures Pow16(4) == 65536
  {
    assert Pow16(1) == 16 && Pow16(2) == 256 && Pow16(3) == 4096;
  }

  // Composition

  /** `replace("0x", "")`. */
  function Strip0x(s: string): string {
    if s == "" then ""
    else if |s| >= 2 && s[0] == '0' && s[1] == 'x' then Strip0x(s[2..])
    else [s[0]] + Strip0x(s[1..])
  }

  function Zeros(n: nat): (s: string)
    ensures |s| == n
  {
    if n == 0 then "" else Zeros(n - 1) + ['0']
  }

  /** `u64::from_str_radix(s, 16)`: a leading plus sign is allowed, the empty string and overflow
      are not. */
  function ParseU64(s: string): Option<nat> {
    var digits := if s != "" && s[0] == '+' then s[1..] else s;
    if digits == "" then None
    else
      match ParseHex(digits)
      case Some(v) => if v < Pow16(16) then Some(v) else None
      case None => None
  }

  /** The nonce text completed with the extranonce, when it is short enough. */
  function Complete(extranonce: string, nonce: string): string
    requires |extranonce| <= 16
  {
    if extranonce != "" && |nonce| <= 16 - |extranonce|
    then extranonce + (Zeros(16 - |extranonce| - |nonce|) + nonce)
    else nonce
  }

  /** The final nonce of a submission, or nothing if it does not parse. */
  function FinalNonce(extranonce: string, submitted: string): Option<nat>
    requires |extranonce| <= 16
  {
    ParseU64(Complete(extranonce, Strip0x(submitted)))
  }

  lemma {:induction false} ZerosParse(n: nat)
    ensures ParseHex(Zeros(n)) == Some(0)
  {
    if n > 0 {
      ZerosParse(n - 1);
      assert Zeros(n)[..n - 1] == Zeros(n - 1);
    }
  }

  lemma PaddedParse(n: nat, nonce: string)
    ensures ParseHex(Zeros(n) + nonce) == ParseHex(nonce)
  {
    ZerosParse(n);
    ParseHexConcat(Zeros(n), nonce);
    ZeroShift(ParseHex(nonce), |nonce|);
  }

  lemma ZeroShift(low: Option<nat>, digits: nat)
    ensures Shifted(Some(0), low, digits) == low
  {
  }

  lemma {:induction false} PlusIsNoDigit(s: string)
    requires s != "" && s[0] == '+'
    ensures ParseHex(s).None?
  {
    if |s| > 1 {
      PlusIsNoDigit(s[..|s| - 1]);
    }
  }

  lemma Pow16Sum(a: nat, b: nat)
    ensures Pow16(a + b) == Pow16(a) * Pow16(b)
  {
    if a > 0 {
      Pow16Sum(a - 1, b);
    }
  }

  /** A nonce of at most 12 hex digits becomes extranonce * 2^48 + nonce; one with any other
      character is refused. */
  lemma ShortNonce(e: nat, nonce: string)
    requires e <= MAX_EXTRANONCE && |nonce| <= 12
    ensures ParseU64(Complete(HexFixed(e, 4), nonce)) == Shifted(Some(e), ParseHex(nonce), 12)
    ensures ParseHex(nonce).Some? ==> ParseHex(nonce).value < Pow16(12)
  {
    var x, low := HexFixed(e, 4), Zeros(12 - |nonce|) + nonce;
    FourDigits();
    HexFixedRoundTrip(e, 4);
    PaddedParse(12 - |nonce|, nonce);
    ParseHexConcat(x, low);
    var s := x + low;
    assert s == Complete(x, nonce);
    if s[0] == '+' {
      PlusIsNoDigit(s);
      PlusIsNoDigit(x);
    }
    ParseHexBound(low);
    FitsSixteen(e, ParseHex(low));
  }

  lemma FitsSixteen(e: nat, low: Option<nat>)
    requires e < 65536 && (low.Some? ==> low.value < Pow16(12))
    ensures low.Some? ==> e * Pow16(12) + low.value < Pow16(16)
  {
    FourDigits();
    Pow16Sum(4, 12);
    if low.Some? {
      var p := Pow16(12);
      assert e * p <= 65535 * p;
    }
  }

  lemma SeparatedParts(e1: nat, v1: nat, e2: nat, v2: nat, p: nat)
    requires v1 < p && v2 < p && e1 * p + v1 == e2 * p + v2
    ensures e1 == e2
  {
    var d := e1 - e2;
    assert d * p == e1 * p - e2 * p;
    MultipleSize(d, p);
  }

  /** Without an extranonce the final nonce is the submitted one. */
  lemma BareNonce(nonce: string)
    requires |nonce| <= 12
    ensures ParseU64(Complete("", nonce)) == ParseU64(nonce)
    ensures ParseU64(nonce).Some? ==> ParseU64(nonce).value < Pow16(12)
  {
    var digits := if nonce != "" && nonce[0] == '+' then nonce[1..] else nonce;
    ParseHexBound(digits);
    Pow16Grows(|digits|, 12);
  }

  lemma Pow16Grows(a: nat, b: nat)
    requires a <= b
    ensures Pow16(a) <= Pow16(b)
  {
    if a < b {
      Pow16Grows(a, b - 1);
    }
  }

  /** What a client can be given: nothing, or four hex digits. */
  ghost predicate IsExtranonce(x: string) {
    x == "" || exists e: nat | e <= MAX_EXTRANONCE :: x == HexFixed(e, 4)
  }

  const ZERO_EXTRANONCE := HexFixed(0, 4)

  /** The first 48 bits of the final nonce of a client that stays within 12 digits. */
  ghost function Share(x: string): nat
    requires IsExtranonce(x)
  {
    if x == "" then 0 else var e: nat :| e <= MAX_EXTRANONCE && x == HexFixed(e, 4); e
  }

  lemma ShareOf(x: string)
    requires IsExtranonce(x)
    ensures |x| <= 16 && Share(x) <= MAX_EXTRANONCE && (x != "" ==> x == HexFixed(Share(x), 4) && |x| == 4)
  {
    FourDigits();
    if x != "" {
      HexFixedRoundTrip(Share(x), 4);
    }
  }

  lemma SharesDiffer(x: string, y: string)
    requires IsExtranonce(x) && IsExtranonce(y)
    ensures Share(x) == Share(y) <==> x == y || (x == "" && y == ZERO_EXTRANONCE) || (x == ZERO_EXTRANONCE && y == "")
  {
    ShareOf(x);
    ShareOf(y);
    FourDigits();
    HexFixedRoundTrip(Share(x), 4);
    HexFixedRoundTrip(Share(y), 4);
    HexFixedRoundTrip(0, 4);
  }

  lemma ShortFinal(x: string, submitted: string)
    requires IsExtranonce(x) && |Strip0x(submitted)| <= 12
    ensures |x| <= 16
    ensures FinalNonce(x, submitted).Some? ==>
              Share(x) * Pow16(12) <= FinalNonce(x, submitted).value < Share(x) * Pow16(12) + Pow16(12)
  {
    ShareOf(x);
    var nonce := Strip0x(submitted);
    if x == "" {
      BareNonce(nonce);
    } else {
      ShortNonce(Share(x), nonce);
    }
  }

  ghost predicate SameFinal(x: string, y: string, s1: string, s2: string)
    requires |x| <= 16 && |y| <= 16
  {
    FinalNonce(x, s1).Some? && FinalNonce(x, s1) == FinalNonce(y, s2)
  }

  /** No two nonces of at most `limit` characters lead to the same final nonce. */
  ghost predicate Separated(x: string, y: string, limit: nat)
    requires |x| <= 16 && |y| <= 16
  {
    forall s1, s2 | |Strip0x(s1)| <= limit && |Strip0x(s2)| <= limit :: !SameFinal(x, y, s1, s2)
  }

  lemma {:induction false} ZerosStayZeros(s: string)
    requires forall i | 0 <= i < |s| :: s[i] == '0'
    ensures Strip0x(s) == s
  {
    if s != "" {
      ZerosStayZeros(s[1..]);
    }
  }

  lemma {:induction false} ZerosAreZero(n: nat)
    ensures forall i | 0 <= i < n :: Zeros(n)[i] == '0'
  {
    if n > 0 {
      ZerosAreZero(n - 1);
    }
  }

  lemma ZerosParsed(n: nat)
    requires n >= 1
    ensures Strip0x(Zeros(n)) == Zeros(n) && ParseU64(Zeros(n)) == Some(0)
  {
    ZerosAreZero(n);
    ZerosStayZeros(Zeros(n));
    ZerosParse(n);
    DigitsParsed(Zeros(n), 0);
  }

  lemma DigitsParsed(digits: string, v: nat)
    requires digits != "" && digits[0] != '+' && ParseHex(digits) == Some(v) && v < 1
    ensures ParseU64(digits) == Some(v)
  {
    Pow16Grows(0, 16);
  }

  /** A nonce of 13 digits is taken as it is, whatever the extranonce. */
  lemma LongCollide(x: string, y: string)
    requires IsExtranonce(x) && IsExtranonce(y)
    ensures |x| <= 16 && |y| <= 16 && SameFinal(x, y, Zeros(13), Zeros(13))
  {
    ShareOf(x);
    ShareOf(y);
    ZerosParsed(13);
  }

  /** Clients of the same share of the nonce space collide on the nonce 0. */
  lemma ShortCollide(x: string, y: string)
    requires IsExtranonce(x) && IsExtranonce(y) && Share(x) == Share(y)
    ensures |x| <= 16 && |y| <= 16 && SameFinal(x, y, Zeros(1), Zeros(1))
  {
    ZeroFinal(x);
    ZeroFinal(y);
  }

  lemma ZeroFinal(x: string)
    requires IsExtranonce(x)
    ensures |x| <= 16 && FinalNonce(x, Zeros(1)) == Some(Share(x) * Pow16(12))
  {
    ShareOf(x);
    ZerosParsed(1);
    ZerosParse(1);
    if x != "" {
      ShortNonce(Share(x), Zeros(1));
    }
  }

  /** For any two extranonces that are given out: two clients never reach the same final nonce if and only
      if nonces are limited to 12 digits and the extranonces differ, other than as none and 0000. */
  lemma SeparationIff(x: string, y: string, limit: nat)
    requires IsExtranonce(x) && IsExtranonce(y) && limit >= 1
    ensures |x| <= 16 && |y| <= 16
    ensures Separated(x, y, limit) <==>
            limit <= 12 && x != y && !(x == "" && y == ZERO_EXTRANONCE) && !(x == ZERO_EXTRANONCE && y == "")
  {
    ShareOf(x);
    ShareOf(y);
    SharesDiffer(x, y);
    if limit > 12 {
      LongCollide(x, y);
      ZerosParsed(13);
    } else if Share(x) == Share(y) {
      ShortCollide(x, y);
      ZerosParsed(1);
    } else {
      ShortSeparated(x, y, limit);
    }
  }

  lemma ShortSeparated(x: string, y: string, limit: nat)
    requires IsExtranonce(x) && IsExtranonce(y) && limit <= 12 && Share(x) != Share(y)
    ensures |x| <= 16 && |y| <= 16 && Separated(x, y, limit)
  {
    ShareOf(x);
    ShareOf(y);
    forall s1, s2 | |Strip0x(s1)| <= limit && |Strip0x(s2)| <= limit
      ensures !SameFinal(x, y, s1, s2)
    {
      ShortFinal(x, s1);
      ShortFinal(y, s2);
      if SameFinal(x, y, s1, s2) {
        var v, p := FinalNonce(x, s1).value, Pow16(12);
        SeparatedParts(Share(x), v - Share(x) * p, Share(y), v - Share(y) * p, p);
      }
    }
  }

  // Nonces of hex digits, with or without a prefix

  /** A text parses if and only if all its characters are hex digits. */
  lemma {:induction false} HexTextIff(h: string)
    ensures ParseHex(h).Some? <==> forall i | 0 <= i < |h| :: DigitValue(h[i]).Some?
  {
    if h != "" {
      var n := |h| - 1;
      HexTextIff(h[..n]);
      assert forall i | 0 <= i < n :: h[..n][i] == h[i];
    }
  }

  lemma {:induction false} NoSign(h: string)
    requires ParseHex(h).Some?
    ensures 'x' !in h && '+' !in h
  {
    if h != "" {
      NoSign(h[..|h| - 1]);
    }
  }

  lemma {:induction false} NothingToStrip(h: string)
    requires 'x' !in h
    ensures Strip0x(h) == h
  {
    if h != "" {
      NothingToStrip(h[1..]);
    }
  }

  lemma HexTextIsBare(h: string)
    requires ParseHex(h).Some?
    ensures Strip0x(h) == h && Strip0x("0x" + h) == h
  {
    NoSign(h);
    NothingToStrip(h);
    assert ("0x" + h)[2..] == h;
  }

  /** A prefix is ignored, whatever the client's extranonce. */
  lemma PrefixIgnored(x: string, h: string)
    requires |x| <= 16 && ParseHex(h).Some?
    ensures FinalNonce(x, "0x" + h) == FinalNonce(x, h)
  {
    HexTextIsBare(h);
  }

  lemma NonceRange()
    ensures Pow16(12) == 0x1_0000_0000_0000 && Pow16(16) == 0x1_0000_0000_0000_0000
  {
    FourDigits();
    Pow16Sum(4, 4);
    Pow16Sum(8, 4);
    Pow16Sum(12, 4);
  }

  lemma WholeNonce(h: string)
    requires ParseHex(h).Some?
    ensures ParseU64(h) == if h != "" && ParseHex(h).value < Pow16(16) then ParseHex(h) else None
  {
    NoSign(h);
  }

  lemma ShiftedNonce(e: nat, x: string, h: string, v: nat)
    requires e <= 65535 && x == HexFixed(e, 4) && ParseHex(h) == Some(v) && |h| <= 12
    ensures FinalNonce(x, h) == Shifted(Some(e), ParseHex(h), 12) && v < Pow16(12)
  {
    HexTextIsBare(h);
    ShortNonce(e, h);
  }

  lemma LowBits(final: Option<nat>, e: nat, v: nat)
    requires final == Shifted(Some(e), Some(v), 12) && v < Pow16(12)
    ensures final == Some(e * 0x1_0000_0000_0000 + v) && v < 0x1_0000_0000_0000
  {
    NonceRange();
    assert e * Pow16(12) == e * 0x1_0000_0000_0000;
  }

  /** A nonce of up to 12 digits is the low 48 bits under the extranonce. */
  lemma ShortHexNonce(e: nat, x: string, h: string, v: nat)
    requires e <= 65535 && x == HexFixed(e, 4) && ParseHex(h) == Some(v) && |h| <= 12
    ensures FinalNonce(x, h) == Some(e * 0x1_0000_0000_0000 + v) && v < 0x1_0000_0000_0000
  {
    ShiftedNonce(e, x, h, v);
    LowBits(FinalNonce(x, h), e, v);
  }

  /** A client without extranonce, or a nonce of more digits, submits the whole nonce, which is refused
      if it is empty or exceeds 64 bits. */
  lemma LongHexNonce(x: string, h: string)
    requires |x| == 4 && ParseHex(h).Some?
    ensures FinalNonce("", h) == if h == "" || ParseHex(h).value > 0xFFFF_FFFF_FFFF_FFFF then None else ParseHex(h)
    ensures |h| > 12 ==> FinalNonce(x, h) == FinalNonce("", h)
  {
    HexTextIsBare(h);
    WholeNonce(h);
    NonceRange();
  }

  predicate HexUpTo(h: string, limit: nat) {
    |h| <= limit && ParseHex(h).Some?
  }

  /** Two extranonces keep all hex nonces of up to `limit` digits apart if and only if they differ and
      the limit is at most 12. */
  lemma HexSeparationIff(e1: nat, x: string, e2: nat, y: string, limit: nat)
    requires e1 <= 65535 && x == HexFixed(e1, 4) && e2 <= 65535 && y == HexFixed(e2, 4) && limit >= 1
    ensures (forall h1, h2 | HexUpTo(h1, limit) && HexUpTo(h2, limit) :: !SameFinal(x, y, h1, h2)) <==> e1 != e2 && limit <= 12
  {
    if e1 != e2 && limit <= 12 {
      forall h1, h2 | HexUpTo(h1, limit) && HexUpTo(h2, limit)
        ensures !SameFinal(x, y, h1, h2)
      {
        ShortHexNonce(e1, x, h1, ParseHex(h1).value);
        ShortHexNonce(e2, y, h2, ParseHex(h2).value);
      }
    } else {
      var n := if e1 == e2 then 1 else 13;
      ZerosParse(n);
      assert HexUpTo(Zeros(n), limit);
      ZerosShared(e1, x, e2, y, n);
    }
  }

  lemma ZerosShared(e1: nat, x: string, e2: nat, y: string, n: nat)
    requires e1 <= 65535 && x == HexFixed(e1, 4) && e2 <= 65535 && y == HexFixed(e2, 4)
    requires n == 13 || (n == 1 && e1 == e2)
    ensures SameFinal(x, y, Zeros(n), Zeros(n))
  {
    ZerosParse(n);
    if n == 13 {
      LongHexNonce(x, Zeros(n));
      LongHexNonce(y, Zeros(n));
    } else {
      ShortHexNonce(e1, x, Zeros(n), 0);
    }
  }
}
