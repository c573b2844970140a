/** Hexadecimal text of numbers and of byte strings. */
module Hex {
  import opened Options
  import opened Arith
  import opened ByteOrder

  function DigitValue(c: char): Option<nat> {
    if '0' <= c <= '9' then Some(c as int - '0' as int)
    else if 'a' <= c <= 'f' then Some(c as int - 'a' as int + 10)
    else if 'A' <= c <= 'F' then Some(c as int - 'A' as int + 10)
    else None
  }

  function Digit(n: nat): (c: char)
    requires n < 16
    ensures DigitValue(c) == Some(n)
  {
    if n < 10 then ('0' as int + n) as char else ('a' as int + (n - 10)) as char
  }

  function Pow16(k: nat): (p: nat)
    ensures p >= 1
  {
    if k == 0 then 1 else 16 * Pow16(k - 1)
  }

  /** `{:0width$x}` of a number that fits. */
  function HexFixed(n: nat, width: nat): (s: string)
    ensures |s| == width
  {
    if width == 0 then "" else HexFixed(n / 16, width - 1) + [Digit(n % 16)]
  }

  /** The value of a string of hex digits of either case. */
  function ParseHex(s: string): (v: Option<nat>)
  {
    if s == "" then Some(0)
    else Extended(ParseHex(s[..|s| - 1]), DigitValue(s[|s| - 1]))
  }

  lemma {:induction false} ParseHexBound(s: string)
    ensures ParseHex(s).Some? ==> ParseHex(s).value < Pow16(|s|)
  {
    if s != "" {
      ParseHexBound(s[..|s| - 1]);
    }
  }

  lemma {:induction false} HexFixedRoundTrip(n: nat, width: nat)
    requires n < Pow16(width)
    ensures ParseHex(HexFixed(n, width)) == Some(n)
  {
    if width > 0 {
      HexFixedRoundTrip(n / 16, width - 1);
      var s := HexFixed(n, width);
      assert s[..|s| - 1] == HexFixed(n / 16, width - 1);
    }
  }

  /** A concatenation reads as the left part shifted by the digits of the right one. */
  function Shifted(high: Option<nat>, low: Option<nat>, digits: nat): Option<nat> {
    match (high, low)
    case (Some(h), Some(l)) => Some(h * Pow16(digits) + l)
    case _ => None
  }

  lemma {:induction false} ParseHexConcat(a: string, b: string)
    ensures ParseHex(a + b) == Shifted(ParseHex(a), ParseHex(b), |b|)
    decreases |b|
  {
    if b == "" {
      assert a + b == a;
    } else {
      var n := |b| - 1;
      ParseHexConcat(a, b[..n]);
      assert (a + b)[..|a + b| - 1] == a + b[..n];
      ShiftOnce(ParseHex(a), ParseHex(b[..n]), n, DigitValue(b[n]));
    }
  }

  function Extended(high: Option<nat>, d: Option<nat>): Option<nat> {
    match (high, d)
    case (Some(h), Some(v)) => Some(16 * h + v)
    case _ => None
  }

  lemma ShiftOnce(high: Option<nat>, low: Option<nat>, digits: nat, d: Option<nat>)
    ensures Extended(Shifted(high, low, digits), d) == Shifted(high, Extended(low, d), digits + 1)
  {
    if high.Some? && low.Some? && d.Some? {
      var h, p := high.value, Pow16(digits);
      var hp := h * p;
      assert h * (16 * p) == 16 * hp;
    }
  }

  // Bytes

  function HexBytes(bs: Bytes): (s: string)
    ensures |s| == 2 * |bs|
  {
    if bs == [] then ""
    else
      var b := bs[|bs| - 1];
      HexBytes(bs[..|bs| - 1]) + [Digit(b / 16), Digit(b % 16)]
  }

  function ByteOf(high: char, low: char): Option<Byte> {
    match (DigitValue(high), DigitValue(low))
    case (Some(h), Some(l)) => if h < 16 && l < 16 then Some(16 * h + l) else None
    case _ => None
  }

  function AppendByte(bs: Option<Bytes>, b: Option<Byte>): Option<Bytes> {
    if bs.Some? && b.Some? then Some(bs.value + [b.value]) else None
  }

  function UnhexBytes(s: string): Option<Bytes> {
    if s == "" then Some([])
    else if |s| == 1 then None
    else
      var n := |s| - 2;
      AppendByte(UnhexBytes(s[..n]), ByteOf(s[n], s[n + 1]))
  }

  lemma ByteRoundTrip(b: Byte)
    ensures ByteOf(Digit(b / 16), Digit(b % 16)) == Some(b)
  {
  }

  lemma {:induction false} HexBytesRoundTrip(bs: Bytes)
    ensures UnhexBytes(HexBytes(bs)) == Some(bs)
  {
    if bs != [] {
      var init, b := bs[..|bs| - 1], bs[|bs| - 1];
      HexBytesRoundTrip(init);
      var s := HexBytes(bs);
      assert s[..|s| - 2] == HexBytes(init);
      ByteRoundTrip(b);
      assert bs == init + [b];
    }
  }

  lemma {:induction false} HexBytesConcat(a: Bytes, b: Bytes)
    ensures HexBytes(a + b) == HexBytes(a) + HexBytes(b)
    decreases |b|
  {
    if b == [] {
      assert a + b == a;
    } else {
      var n := |b| - 1;
      HexBytesConcat(a, b[..n]);
      assert (a + b)[..|a + b| - 1] == a + b[..n];
    }
  }

  // Numbers as bytes

  function FromBE(bs: Bytes): nat {
    if bs == [] then 0 else 256 * FromBE(bs[..|bs| - 1]) + bs[|bs| - 1]
  }

  function ToBE(n: nat, len: nat): (bs: Bytes)
    ensures |bs| == len
  {
    if len == 0 then [] else ToBE(n / 256, len - 1) + [n % 256]
  }

  function Reverse(bs: Bytes): (r: Bytes)
    ensures |r| == |bs|
  {
    if bs == [] then [] else [bs[|bs| - 1]] + Reverse(bs[..|bs| - 1])
  }

  function FromLE(bs: Bytes): nat {
    FromBE(Reverse(bs))
  }

  function ToLE(n: nat, len: nat): Bytes {
    Reverse(ToBE(n, len))
  }

  lemma {:induction false} ReverseAppend(x: Byte, bs: Bytes)
    ensures Reverse([x] + bs) == Reverse(bs) + [x]
  {
    if bs == [] {
      assert [x] + bs == [x];
      assert [x][..0] == [];
    } else {
      var n := |bs| - 1;
      ReverseAppend(x, bs[..n]);
      assert ([x] + bs)[..|bs|] == [x] + bs[..n];
    }
  }

  lemma {:induction false} ReverseTwice(bs: Bytes)
    ensures Reverse(Reverse(bs)) == bs
  {
    if bs != [] {
      var n := |bs| - 1;
      ReverseTwice(bs[..n]);
      ReverseAppend(bs[n], Reverse(bs[..n]));
    }
  }

  lemma {:induction false} BERoundTrip(n: nat, len: nat)
    requires n < Pow16(2 * len)
    ensures FromBE(ToBE(n, len)) == n
  {
    if len > 0 {
      assert Pow16(2 * len) == 256 * Pow16(2 * (len - 1));
      BERoundTrip(n / 256, len - 1);
      var bs := ToBE(n, len);
      assert bs[..|bs| - 1] == ToBE(n / 256, len - 1);
    }
  }

  lemma {:induction false} FromBEInverse(bs: Bytes)
    ensures ToBE(FromBE(bs), |bs|) == bs
  {
    if bs != [] {
      var n := |bs| - 1;
      FromBEInverse(bs[..n]);
      var v := FromBE(bs);
      assert v / 256 == FromBE(bs[..n]) && v % 256 == bs[n];
      assert bs == bs[..n] + [bs[n]];
    }
  }

  lemma HexFixedTwoDigits(v: nat, n: nat)
    ensures HexFixed(v, n + 2) == HexFixed(v / 256, n) + [Digit(v / 16 % 16), Digit(v % 16)]
  {
    assert v / 16 / 16 == v / 256;
    assert HexFixed(v / 16, n + 1) == HexFixed(v / 16 / 16, n) + [Digit(v / 16 % 16)];
  }

  /** The hex digits of a big-endian word are the hex digits of its bytes in order. */
  lemma {:induction false} HexOfWord(bs: Bytes)
    ensures HexFixed(FromBE(bs), 2 * |bs|) == HexBytes(bs)
  {
    if bs != [] {
      var n := |bs| - 1;
      HexOfWord(bs[..n]);
      HexFixedTwoDigits(FromBE(bs), 2 * n);
      LowByte(FromBE(bs[..n]), bs[n]);
    }
  }

  lemma LowByte(high: nat, b: Byte)
    ensures var v := 256 * high + b; v / 256 == high && v / 16 % 16 == b / 16 && v % 16 == b % 16
  {
    var v := 256 * high + b;
    assert v / 16 == 16 * high + b / 16;
  }

  // What the digits and bytes are

  const DIGITS := "0123456789abcdef"
  const UPPER_DIGITS := "0123456789ABCDEF"

  /** Lower-case digits are written, either case is read, and nothing else is a digit. */
  lemma DigitsAreHex(c: char, n: nat)
    ensures n < 16 ==> Digit(n) == DIGITS[n] && DigitValue(UPPER_DIGITS[n]) == Some(n)
    ensures DigitValue(c).Some? <==> c in DIGITS || c in UPPER_DIGITS
  {
    if DigitValue(c).Some? {
      var v := DigitValue(c).value;
      assert DIGITS[v] == c || UPPER_DIGITS[v] == c;
    }
  }

  /** Digit `i` from the right is the coefficient of 16^i. */
  lemma {:induction false} HexFixedAt(n: nat, width: nat, i: nat)
    requires i < width
    ensures HexFixed(n, width)[width - 1 - i] == DIGITS[n / Pow16(i) % 16]
  {
    DigitsAreHex('0', n % 16);
    if i > 0 {
      HexFixedAt(n / 16, width - 1, i - 1);
      DividedTwice(n, 16, Pow16(i - 1));
    }
  }

  /** Byte `i` is written as its high digit and then its low one. */
  lemma {:induction false} HexBytesAt(bs: Bytes, i: nat)
    requires i < |bs|
    ensures HexBytes(bs)[2 * i] == DIGITS[bs[i] / 16] && HexBytes(bs)[2 * i + 1] == DIGITS[bs[i] % 16]
  {
    DigitsAreHex('0', bs[i] / 16);
    DigitsAreHex('0', bs[i] % 16);
    if i < |bs| - 1 {
      HexBytesAt(bs[..|bs| - 1], i);
    }
  }

  lemma {:induction false} ReverseAt(bs: Bytes, i: nat)
    requires i < |bs|
    ensures Reverse(bs)[i] == bs[|bs| - 1 - i]
  {
    if i > 0 {
      ReverseAt(bs[..|bs| - 1], i - 1);
    }
  }

  /** Byte `i` from the right of a big-endian number, and from the left of a little-endian one, is
      the coefficient of 256^i. */
  lemma {:induction false} BytesAt(n: nat, len: nat, i: nat)
    requires i < len
    ensures ToBE(n, len)[len - 1 - i] == n / Pow16(2 * i) % 256
    ensures ToLE(n, len)[i] == n / Pow16(2 * i) % 256
  {
    ReverseAt(ToBE(n, len), i);
    if i > 0 {
      BytesAt(n / 256, len - 1, i - 1);
      assert Pow16(2 * i) == 256 * Pow16(2 * (i - 1));
      DividedTwice(n, 256, Pow16(2 * (i - 1)));
    }
  }

  /** Byte `i` of a little-endian word is the coefficient of 256^i of its value. */
  lemma WordBytes(bs: Bytes, i: nat)
    requires i < |bs|
    ensures FromLE(bs) / Pow16(2 * i) % 256 == bs[i]
  {
    FromBEInverse(Reverse(bs));
    ReverseTwice(bs);
    BytesAt(FromLE(bs), |bs|, i);
  }
}
