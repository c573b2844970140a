/** UTF-8 and its lossy decoding as in `String::from_utf8_lossy`: each longest beginning of a character that
    cannot be completed becomes one replacement character. */
module Utf8 {
  type Octet = x: int | 0 <= x < 256

  /** A Unicode scalar value. */
  type Scalar = x: int | 0 <= x < 0xD800 || 0xE000 <= x < 0x110000

  const REPLACEMENT: Scalar := 0xFFFD

  function EncodeOne(c: Scalar): (bs: seq<Octet>)
    ensures 1 <= |bs| <= 4
  {
    if c < 0x80 then [c]
    else if c < 0x800 then [0xC0 + c / 64, 0x80 + c % 64]
    else if c < 0x10000 then [0xE0 + c / 4096, 0x80 + c / 64 % 64, 0x80 + c % 64]
    else [0xF0 + c / 262144, 0x80 + c / 4096 % 64, 0x80 + c / 64 % 64, 0x80 + c % 64]
  }

  function Encode(text: seq<Scalar>): seq<Octet> {
    if text == [] then [] else EncodeOne(text[0]) + Encode(text[1..])
  }

  // Decoding

  /** The number of bytes of the character that a byte begins, 0 if it begins none. */
  function Width(b: Octet): nat {
    if b < 0x80 then 1
    else if 0xC2 <= b < 0xE0 then 2
    else if 0xE0 <= b < 0xF0 then 3
    else if 0xF0 <= b < 0xF5 then 4
    else 0
  }

  predicate Continues(b: Octet) {
    0x80 <= b < 0xC0
  }

  /** Second bytes that lead neither to a longer form than needed, nor to a surrogate, nor too far. */
  predicate Second(b: Octet, next: Octet) {
    && Continues(next)
    && (b == 0xE0 ==> 0xA0 <= next) && (b == 0xED ==> next < 0xA0)
    && (b == 0xF0 ==> 0x90 <= next) && (b == 0xF4 ==> next < 0x90)
  }

  /** How many bytes at the front belong together, one at least. */
  function Together(bs: seq<Octet>): (n: nat)
    requires bs != []
    ensures 1 <= n <= |bs| && n <= 4
  {
    var w := Width(bs[0]);
    if w < 2 || |bs| < 2 || !Second(bs[0], bs[1]) then 1
    else if w < 3 || |bs| < 3 || !Continues(bs[2]) then 2
    else if w < 4 || |bs| < 4 || !Continues(bs[3]) then 3
    else 4
  }

  function Six(b: Octet): int {
    var x: int := b;
    x - 0x80
  }

  /** The character of so many bytes. */
  function Value(bs: seq<Octet>): (c: int)
    requires 1 <= |bs| <= 4
  {
    var lead: int := bs[0];
    if |bs| == 1 then lead
    else if |bs| == 2 then (lead - 0xC0) * 64 + Six(bs[1])
    else if |bs| == 3 then (lead - 0xE0) * 4096 + Six(bs[1]) * 64 + Six(bs[2])
    else (lead - 0xF0) * 262144 + Six(bs[1]) * 4096 + Six(bs[2]) * 64 + Six(bs[3])
  }

  lemma ValueIsScalar(bs: seq<Octet>)
    requires bs != [] && Together(bs) == Width(bs[0])
    ensures var c := Value(bs[..Together(bs)]); 0 <= c < 0xD800 || 0xE000 <= c < 0x110000
  {
  }

  function FirstOf(bs: seq<Octet>): Scalar
    requires bs != []
  {
    if Together(bs) == Width(bs[0]) then ValueIsScalar(bs); Value(bs[..Together(bs)]) else REPLACEMENT
  }

  function Decode(bs: seq<Octet>): seq<Scalar>
    decreases |bs|
  {
    if bs == [] then [] else [FirstOf(bs)] + Decode(bs[Together(bs)..])
  }

  // Encoded text decodes to itself

  lemma EncodedOne(c: Scalar)
    ensures var bs := EncodeOne(c);
            && Width(bs[0]) == |bs| && Value(bs) == c
            && (|bs| >= 2 ==> Second(bs[0], bs[1]))
            && forall i | 1 <= i < |bs| :: Continues(bs[i])
  {
    SixBits(c);
    SixBits(c / 64);
    SixBits(c / 4096);
  }

  lemma SixBits(x: nat)
    ensures x == x / 64 * 64 + x % 64 && 0 <= x % 64 < 64
    ensures x / 64 / 64 == x / 4096 && x / 4096 / 64 == x / 262144
  {
  }

  lemma EncodedFirst(c: Scalar, rest: seq<Octet>)
    ensures var bs := EncodeOne(c) + rest;
            Together(bs) == |EncodeOne(c)| && FirstOf(bs) == c && bs[Together(bs)..] == rest
  {
    EncodedOne(c);
    assert (EncodeOne(c) + rest)[..|EncodeOne(c)|] == EncodeOne(c);
  }

  lemma DecodeFirst(c: Scalar, rest: seq<Octet>)
    ensures Decode(EncodeOne(c) + rest) == [c] + Decode(rest)
  {
    EncodedFirst(c, rest);
  }

  lemma Associative<T>(x: seq<T>, y: seq<T>, z: seq<T>)
    ensures x + y + z == x + (y + z)
  {
  }

  lemma {:induction false} DecodeAfter(text: seq<Scalar>, rest: seq<Octet>)
    ensures Decode(Encode(text) + rest) == text + Decode(rest)
    decreases |text|
  {
    if text == [] {
      assert Encode(text) + rest == rest;
    } else {
      var mid := Encode(text[1..]);
      DecodeAfter(text[1..], rest);
      DecodeFirst(text[0], mid + rest);
      Associative(EncodeOne(text[0]), mid, rest);
      Associative([text[0]], text[1..], Decode(rest));
      assert [text[0]] + text[1..] == text;
    }
  }

  lemma DecodeEncoded(text: seq<Scalar>)
    ensures Decode(Encode(text)) == text
  {
    DecodeAfter(text, []);
    assert Encode(text) + [] == Encode(text);
  }

  lemma {:induction false} EncodeSum(a: seq<Scalar>, b: seq<Scalar>)
    ensures Encode(a + b) == Encode(a) + Encode(b)
    decreases |a|
  {
    if a == [] {
      assert a + b == b;
    } else {
      EncodeSum(a[1..], b);
      assert (a + b)[1..] == a[1..] + b;
      Associative(EncodeOne(a[0]), Encode(a[1..]), Encode(b));
    }
  }

  // Text that arrives in reads, each decoded by itself

  function Join(parts: seq<seq<Octet>>): seq<Octet> {
    if parts == [] then [] else parts[0] + Join(parts[1..])
  }

  function Texts(parts: seq<seq<Octet>>): seq<Scalar> {
    if parts == [] then [] else Decode(parts[0]) + Texts(parts[1..])
  }

  /** Whole characters only. */
  ghost predicate Whole(bs: seq<Octet>) {
    exists text :: bs == Encode(text)
  }

  ghost predicate AllWhole(parts: seq<seq<Octet>>) {
    forall i | 0 <= i < |parts| :: Whole(parts[i])
  }

  lemma {:induction false} WholeReads(parts: seq<seq<Octet>>)
    requires AllWhole(parts)
    ensures Encode(Texts(parts)) == Join(parts)
    decreases |parts|
  {
    if parts != [] {
      var text :| parts[0] == Encode(text);
      DecodeEncoded(text);
      assert forall i | 0 <= i < |parts| - 1 :: parts[1..][i] == parts[i + 1];
      WholeReads(parts[1..]);
      EncodeSum(text, Texts(parts[1..]));
    }
  }

  predicate Continuations(bs: seq<Octet>) {
    forall i | 0 <= i < |bs| :: Continues(bs[i])
  }

  /** A stray continuation byte becomes a replacement character. */
  lemma {:induction false} StrayBytes(q: seq<Octet>, rest: seq<Octet>)
    requires Continuations(q)
    ensures |Decode(q + rest)| == |q| + |Decode(rest)|
    decreases |q|
  {
    if q == [] {
      assert q + rest == rest;
    } else {
      StrayBytes(q[1..], rest);
      assert (q + rest)[1..] == q[1..] + rest;
    }
  }

  /** Where a cut of an encoded text falls: before a character `c`, or inside it after its bytes `p`. */
  datatype Place = Between(before: seq<Scalar>, after: seq<Scalar>)
    | Inside(before: seq<Scalar>, p: seq<Octet>, q: seq<Octet>, after: seq<Scalar>)

  ghost predicate CutAt(text: seq<Scalar>, a: seq<Octet>, b: seq<Octet>, at: Place) {
    match at
    case Between(u, v) => text == u + v && a == Encode(u) && b == Encode(v)
    case Inside(u, p, q, v) =>
      && |text| == |u| + 1 + |v| && p != [] && q != [] && Continuations(q)
      && a == Encode(u) + p && b == q + Encode(v)
  }

  lemma {:induction false} Cut(text: seq<Scalar>, a: seq<Octet>, b: seq<Octet>) returns (at: Place)
    requires a + b == Encode(text)
    ensures CutAt(text, a, b, at)
    decreases |text|
  {
    if a == [] {
      at := Between([], text);
      assert [] + text == text;
    } else {
      var first, rest := EncodeOne(text[0]), Encode(text[1..]);
      assert a + b == first + rest;
      if |a| < |first| {
        at := CutFirst(text, a, b, first, rest);
      } else {
        var a' := a[|first|..];
        assert first == (a + b)[..|first|] == a[..|first|];
        assert a == first + a' && rest == (a + b)[|first|..] == a' + b;
        var later := Cut(text[1..], a', b);
        at := later.(before := [text[0]] + later.before);
        CutLater(text, a, b, a', later, at);
      }
    }
  }

  lemma CutFirst(text: seq<Scalar>, a: seq<Octet>, b: seq<Octet>, first: seq<Octet>, rest: seq<Octet>) returns (at: Place)
    requires text != [] && first == EncodeOne(text[0]) && rest == Encode(text[1..])
    requires a + b == first + rest && 0 < |a| < |first|
    ensures CutAt(text, a, b, at)
  {
    at := Inside([], a, first[|a|..], text[1..]);
    EncodedOne(text[0]);
    assert a == (first + rest)[..|a|] == first[..|a|];
    assert b == (a + b)[|a|..] == (first + rest)[|a|..] == first[|a|..] + rest;
    assert Encode([]) + a == a;
  }

  lemma CutLater(text: seq<Scalar>, a: seq<Octet>, b: seq<Octet>, a': seq<Octet>, later: Place, at: Place)
    requires text != [] && a == EncodeOne(text[0]) + a' && CutAt(text[1..], a', b, later)
    requires at == later.(before := [text[0]] + later.before)
    ensures CutAt(text, a, b, at)
  {
    var u := later.before;
    assert ([text[0]] + u)[1..] == u;
    assert Encode([text[0]] + u) == EncodeOne(text[0]) + Encode(u);
    if later.Between? {
      assert text == [text[0]] + text[1..] == [text[0]] + u + later.after;
    } else {
      assert EncodeOne(text[0]) + (Encode(u) + later.p) == EncodeOne(text[0]) + Encode(u) + later.p;
    }
  }

  /** Reads that begin with stray bytes decode to at least as many characters; to as many only if none ends
      inside a character. */
  lemma {:induction false} CountReads(q: seq<Octet>, text: seq<Scalar>, parts: seq<seq<Octet>>)
    requires Continuations(q) && Join(parts) == q + Encode(text)
    ensures |Texts(parts)| >= |q| + |text|
    ensures q == [] && |Texts(parts)| == |text| ==> AllWhole(parts)
    decreases |parts|
  {
    if parts != [] {
      var a, b := parts[0], Join(parts[1..]);
      assert a + b == q + Encode(text);
      if |a| <= |q| {
        CountStray(q, text, a, b);
        CountReads(q[|a|..], text, parts[1..]);
        WholeFirst(parts);
      } else {
        var a' := AfterStray(q, text, a, b);
        var at := Cut(text, a', b);
        CountFirst(text, a', b, at);
        CountReads(if at.Between? then [] else at.q, at.after, parts[1..]);
        WholeFirst(parts);
      }
    }
  }

  lemma CountStray(q: seq<Octet>, text: seq<Scalar>, a: seq<Octet>, b: seq<Octet>)
    requires Continuations(q) && a + b == q + Encode(text) && |a| <= |q|
    ensures b == q[|a|..] + Encode(text) && |Decode(a)| == |a|
    ensures q == [] ==> Whole(a)
  {
    assert a == (a + b)[..|a|] == (q + Encode(text))[..|a|] == q[..|a|];
    assert b == (a + b)[|a|..] == (q + Encode(text))[|a|..] == q[|a|..] + Encode(text);
    StrayBytes(a, []);
    assert a + [] == a;
    if q == [] {
      assert a == Encode([]);
    }
  }

  lemma AfterStray(q: seq<Octet>, text: seq<Scalar>, a: seq<Octet>, b: seq<Octet>) returns (a': seq<Octet>)
    requires Continuations(q) && a + b == q + Encode(text) && |a| > |q|
    ensures a' + b == Encode(text) && |Decode(a)| == |q| + |Decode(a')| && (q == [] ==> a' == a)
  {
    a' := a[|q|..];
    assert q == (a + b)[..|q|] == a[..|q|];
    assert a == q + a' && a' + b == (a + b)[|q|..] == Encode(text);
    StrayBytes(q, a');
  }

  lemma CountFirst(text: seq<Scalar>, a: seq<Octet>, b: seq<Octet>, at: Place)
    requires CutAt(text, a, b, at)
    ensures at.Between? ==> b == [] + Encode(at.after) && |Decode(a)| + |at.after| == |text| && Whole(a)
    ensures at.Inside? ==> b == at.q + Encode(at.after) && |Decode(a)| + |at.after| >= |text|
  {
    if at.Between? {
      DecodeEncoded(at.before);
      assert [] + Encode(at.after) == Encode(at.after);
    } else {
      DecodeAfter(at.before, at.p);
    }
  }

  lemma WholeFirst(parts: seq<seq<Octet>>)
    requires parts != []
    ensures Whole(parts[0]) && AllWhole(parts[1..]) ==> AllWhole(parts)
  {
    assert forall i | 1 <= i < |parts| :: parts[i] == parts[1..][i - 1];
  }

  /** Reads of an encoded text, each decoded by itself, give the text if and only if none ends inside a
      character. */
  lemma ReadsDecodeIff(parts: seq<seq<Octet>>, text: seq<Scalar>)
    requires Join(parts) == Encode(text)
    ensures Texts(parts) == text <==> AllWhole(parts)
  {
    if AllWhole(parts) {
      WholeReads(parts);
      DecodeEncoded(Texts(parts));
      DecodeEncoded(text);
    }
    assert [] + Encode(text) == Encode(text);
    CountReads([], text, parts);
  }

  // The bytes themselves, as in section 3 of RFC 3629

  /** The lead byte tells the length, every other byte carries six bits, and no character has a form
      longer than it needs. */
  lemma EncodingLayout(c: Scalar)
    ensures var bs: seq<int> := EncodeOne(c);
            && (c < 0x80 ==> bs == [c])
            && (0x80 <= c < 0x800 ==> |bs| == 2 && 0xC2 <= bs[0] < 0xE0 && c == (bs[0] - 0xC0) * 64 + (bs[1] - 0x80))
            && (0x800 <= c < 0x10000 ==>
                  |bs| == 3 && 0xE0 <= bs[0] < 0xF0 && c == (bs[0] - 0xE0) * 4096 + (bs[1] - 0x80) * 64 + (bs[2] - 0x80))
            && (c >= 0x10000 ==>
                  && |bs| == 4 && 0xF0 <= bs[0] < 0xF5
                  && c == (bs[0] - 0xF0) * 262144 + (bs[1] - 0x80) * 4096 + (bs[2] - 0x80) * 64 + (bs[3] - 0x80))
            && forall i | 1 <= i < |bs| :: 0x80 <= bs[i] < 0xC0
  {
    EncodedOne(c);
  }

  predicate Tail(b: int) {
    0x80 <= b < 0xC0
  }

  /** A byte that begins no character, or one whose character breaks off after it, becomes one replacement
      character. */
  lemma BrokenAfterOne(bs: seq<Octet>)
    requires bs != [] && (0x80 <= bs[0] < 0xC2 || 0xF5 <= bs[0] || (0xC2 <= bs[0] && (|bs| == 1 || !Tail(bs[1]))))
    ensures Decode(bs) == [0xFFFD] + Decode(bs[1..])
  {
    assert Together(bs) == 1 && Width(bs[0]) != 1;
  }

  /** So do the two bytes of a character of three or four that breaks off after them. */
  lemma BrokenAfterTwo(bs: seq<Octet>)
    requires |bs| >= 2 && (0xE1 <= bs[0] < 0xED || 0xF1 <= bs[0] < 0xF4) && Tail(bs[1]) && (|bs| == 2 || !Tail(bs[2]))
    ensures Decode(bs) == [0xFFFD] + Decode(bs[2..])
  {
    assert Together(bs) == 2 && Width(bs[0]) != 2;
  }

  /** And the three bytes of a character of four. */
  lemma BrokenAfterThree(bs: seq<Octet>)
    requires |bs| >= 3 && 0xF1 <= bs[0] < 0xF4 && Tail(bs[1]) && Tail(bs[2]) && (|bs| == 3 || !Tail(bs[3]))
    ensures Decode(bs) == [0xFFFD] + Decode(bs[3..])
  {
    assert Together(bs) == 3 && Width(bs[0]) == 4;
  }

  /** Overlong forms, surrogates and values above 0x10FFFF are no characters: each byte is replaced. */
  lemma NoCharacter(bs: seq<Octet>)
    requires |bs| >= 2 && Tail(bs[1])
    requires || (bs[0] == 0xE0 && bs[1] < 0xA0) || (bs[0] == 0xED && bs[1] >= 0xA0)
             || (bs[0] == 0xF0 && bs[1] < 0x90) || (bs[0] == 0xF4 && bs[1] >= 0x90)
    ensures Decode(bs) == [0xFFFD, 0xFFFD] + Decode(bs[2..])
  {
    assert Together(bs) == 1 && Width(bs[0]) != 1;
    BrokenAfterOne(bs[1..]);
    assert bs[1..][1..] == bs[2..];
  }
}
