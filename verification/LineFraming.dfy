/** The read loop of a Stratum connection: bytes arrive in reads of up to a buffer, NUL bytes are dropped,
    and complete lines are trimmed and handed on. */
module LineFraming {
  import Utf8

  type Text = seq<Utf8.Scalar>

  type Bytes = seq<Utf8.Octet>

  const NEWLINE: Utf8.Scalar := 10

  /** The length of the buffer a read fills. */
  const READ_SIZE: nat := 1024

  /** White space in the sense of Unicode. */
  predicate IsSpace(c: Utf8.Scalar) {
    || 9 <= c <= 13 || c == 32 || c == 0x85 || c == 0xA0 || c == 0x1680 || 0x2000 <= c <= 0x200A
    || c == 0x2028 || c == 0x2029 || c == 0x202F || c == 0x205F || c == 0x3000
  }

  function DropNuls(s: Text): Text {
    if s == [] then []
    else
      var rest := DropNuls(s[..|s| - 1]);
      if s[|s| - 1] == 0 then rest else rest + [s[|s| - 1]]
  }

  function TrimStart(s: Text): Text {
    if s != [] && IsSpace(s[0]) then TrimStart(s[1..]) else s
  }

  function TrimEnd(s: Text): Text {
    if s != [] && IsSpace(s[|s| - 1]) then TrimEnd(s[..|s| - 1]) else s
  }

  function Trim(s: Text): Text {
    TrimEnd(TrimStart(s))
  }

  /** Position of the first newline, or the length. */
  function LineEnd(s: Text): (n: nat)
    ensures n <= |s| && NEWLINE !in s[..n] && (n < |s| ==> s[n] == NEWLINE)
  {
    if s == [] || s[0] == NEWLINE then 0
    else
      var n := LineEnd(s[1..]);
      assert s[..n + 1] == [s[0]] + s[1..][..n];
      n + 1
  }

  const SM: Text := [83, 77]
  const PRI_HTTP_2: Text := [80, 82, 73, 32, 42, 32, 72, 84, 84, 80, 47, 50]
  const GET: Text := [71, 69, 84, 32]
  const POST: Text := [80, 79, 83, 84, 32]
  const PUT: Text := [80, 85, 84, 32]
  const DELETE: Text := [68, 69, 76, 69, 84, 69, 32]
  const HEAD: Text := [72, 69, 65, 68, 32]
  const OPTIONS: Text := [79, 80, 84, 73, 79, 78, 83, 32]

  /** Lines that show an HTTP or gRPC client; "PRI * HTTP/2.0" is covered by its shorter form. */
  predicate Rejected(line: Text) {
    || line == SM
    || PRI_HTTP_2 <= line || GET <= line || POST <= line || PUT <= line
    || DELETE <= line || HEAD <= line || OPTIONS <= line
  }

  // The lines of a text

  /** Lines handed on, what stays buffered, and whether the connection is still open: the
      connection is closed at the first rejected line. */
  datatype Parsed = Parsed(lines: seq<Text>, rest: Text, open: bool)

  function Parse(buffer: Text): Parsed
    decreases |buffer|
  {
    var n := LineEnd(buffer);
    if n == |buffer| then Parsed([], buffer, true)
    else
      var line, rest := Trim(buffer[..n]), buffer[n + 1..];
      if line == [] then Parse(rest)
      else if Rejected(line) then Parsed([], rest, false)
      else Prepend([line], Parse(rest))
  }

  function Prepend(lines: seq<Text>, p: Parsed): Parsed {
    p.(lines := lines + p.lines)
  }

  // The connection

  datatype Conn = Conn(lineBuffer: Text, firstMessage: bool, open: bool, handedOn: seq<Text>)

  const Fresh := Conn([], true, true, [])

  function FirstLine(data: Text): Text {
    Trim(data[..LineEnd(data)])
  }

  /** The effect of a read, by its text without NULs. */
  function ReceivedData(c: Conn, data: Text): Conn {
    if !c.open then c
    else if c.firstMessage && Rejected(FirstLine(data)) then c.(open := false)
    else
      var p := Parse(c.lineBuffer + data);
      Conn(p.rest, false, p.open, c.handedOn + p.lines)
  }

  /** The effect of a read of whole characters. */
  function Received(c: Conn, chunk: Text): Conn {
    ReceivedData(c, DropNuls(chunk))
  }

  function After(chunks: seq<Text>): Conn {
    if chunks == [] then Fresh else Received(After(chunks[..|chunks| - 1]), chunks[|chunks| - 1])
  }

  /** On bytes: NUL bytes go first, then each read is decoded by itself. */
  function DropNulBytes(bs: Bytes): Bytes {
    if bs == [] then []
    else
      var rest := DropNulBytes(bs[..|bs| - 1]);
      if bs[|bs| - 1] == 0 then rest else rest + [bs[|bs| - 1]]
  }

  function ReadText(bs: Bytes): Text {
    Utf8.Decode(DropNulBytes(bs))
  }

  function AfterBytes(parts: seq<Bytes>): Conn {
    if parts == [] then Fresh else ReceivedData(AfterBytes(parts[..|parts| - 1]), ReadText(parts[|parts| - 1]))
  }

  class Listener {
    var lineBuffer: Text
    var firstMessage: bool
    var open: bool
    var handedOn: seq<Text>

    ghost function Current(): Conn
      reads this
    {
      Conn(lineBuffer, firstMessage, open, handedOn)
    }

    constructor ()
      ensures Current() == Fresh
    {
      lineBuffer := [];
      firstMessage := true;
      open := true;
      handedOn := [];
    }

    method FilterNuls(chunk: Bytes) returns (data: Bytes)
      ensures data == DropNulBytes(chunk)
    {
      data := [];
      for i := 0 to |chunk|
        invariant data == DropNulBytes(chunk[..i])
      {
        assert chunk[..i + 1][..i] == chunk[..i];
        if chunk[i] != 0 {
          data := data + [chunk[i]];
        }
      }
      assert chunk[..|chunk|] == chunk;
    }

    /** One successful read. */
    method Receive(chunk: Bytes)
      requires open
      modifies this
      ensures Current() == ReceivedData(old(Current()), ReadText(chunk))
    {
      var bytes := FilterNuls(chunk);
      var data := Utf8.Decode(bytes);
      if firstMessage {
        if Rejected(FirstLine(data)) {
          open := false;
          return;
        }
        firstMessage := false;
      }
      lineBuffer := lineBuffer + data;
      var parsed := CompleteLines(lineBuffer);
      lineBuffer := parsed.rest;
      open := parsed.open;
      handedOn := handedOn + parsed.lines;
    }
  }

  /** The inner loop: cut line after line off the buffer. */
  method CompleteLines(buffer: Text) returns (p: Parsed)
    ensures p == Parse(buffer)
  {
    var lines: seq<Text>, rest := [], buffer;
    while LineEnd(rest) < |rest|
      invariant Parse(buffer) == Prepend(lines, Parse(rest))
      decreases |rest|
    {
      var newlinePos := LineEnd(rest);
      var line := Trim(rest[..newlinePos]);
      var after := rest[newlinePos + 1..];
      if line != [] {
        if Rejected(line) {
          return Parsed(lines, after, false);
        }
        PrependTwice(lines, line, Parse(after));
        lines := lines + [line];
      }
      rest := after;
    }
    p := Parsed(lines, rest, true);
  }

  lemma PrependTwice(lines: seq<Text>, line: Text, p: Parsed)
    ensures Prepend(lines, Prepend([line], p)) == Prepend(lines + [line], p)
  {
    assert lines + ([line] + p.lines) == lines + [line] + p.lines;
  }

  // Feeding a text in two parts

  lemma LineEndOfSum(x: Text, y: Text)
    ensures LineEnd(x) < |x| ==> LineEnd(x + y) == LineEnd(x)
    ensures LineEnd(x) == |x| ==> LineEnd(x + y) == |x| + LineEnd(y)
  {
    if x == [] {
      assert x + y == y;
    } else if x[0] != NEWLINE {
      LineEndOfSum(x[1..], y);
      assert (x + y)[1..] == x[1..] + y;
    }
  }

  /** Parsing on, with more text after what is buffered. */
  function Continue(p: Parsed, y: Text): Parsed {
    if p.open then Prepend(p.lines, Parse(p.rest + y)) else p.(rest := p.rest + y)
  }

  lemma PrependContinue(lines: seq<Text>, p: Parsed, y: Text)
    ensures Prepend(lines, Continue(p, y)) == Continue(Prepend(lines, p), y)
  {
    if p.open {
      var q := Parse(p.rest + y);
      assert lines + (p.lines + q.lines) == lines + p.lines + q.lines;
    }
  }

  /** Parsing a text in two steps, with the rest of the first buffered, gives the same. */
  lemma {:induction false} ParseInTwo(x: Text, y: Text)
    ensures Parse(x + y) == Continue(Parse(x), y)
    decreases |x|
  {
    if LineEnd(x) < |x| {
      ParseInTwo(x[LineEnd(x) + 1..], y);
      ContinueAfterLine(x, y);
    } else {
      ContinueInLine(x, y);
    }
  }

  lemma ContinueInLine(x: Text, y: Text)
    requires LineEnd(x) == |x|
    ensures Parse(x + y) == Continue(Parse(x), y)
  {
    var q := Parse(x + y);
    assert [] + q.lines == q.lines;
    assert Parse(x) == Parsed([], x, true);
  }

  lemma ContinueAfterLine(x: Text, y: Text)
    requires LineEnd(x) < |x|
    requires var rest := x[LineEnd(x) + 1..]; Parse(rest + y) == Continue(Parse(rest), y)
    ensures Parse(x + y) == Continue(Parse(x), y)
  {
    var n := LineEnd(x);
    var rest, line := x[n + 1..], Trim(x[..n]);
    CutOfSum(x, y);
    ParseCut(x + y, line, rest + y);
    ParseCut(x, line, rest);
    PrependContinue([line], Parse(rest), y);
  }

  lemma CutOfSum(x: Text, y: Text)
    requires LineEnd(x) < |x|
    ensures var n := LineEnd(x);
            LineEnd(x + y) == n && (x + y)[..n] == x[..n] && (x + y)[n + 1..] == x[n + 1..] + y
  {
    LineEndOfSum(x, y);
  }

  lemma ParseCut(x: Text, line: Text, rest: Text)
    requires LineEnd(x) < |x| && line == Trim(x[..LineEnd(x)]) && rest == x[LineEnd(x) + 1..]
    ensures Parse(x) == if line == [] then Parse(rest)
                        else if Rejected(line) then Parsed([], rest, false)
                        else Prepend([line], Parse(rest))
  {
  }

  // Whole streams

  function Join(chunks: seq<Text>): Text {
    if chunks == [] then [] else Join(chunks[..|chunks| - 1]) + chunks[|chunks| - 1]
  }

  lemma {:induction false} DropNulsOfSum(x: Text, y: Text)
    ensures DropNuls(x + y) == DropNuls(x) + DropNuls(y)
  {
    if y == [] {
      assert x + y == x;
    } else {
      DropNulsOfSum(x, y[..|y| - 1]);
      assert (x + y)[..|x + y| - 1] == x + y[..|y| - 1];
    }
  }

  ghost predicate FirstReadRejected(chunks: seq<Text>) {
    chunks != [] && Rejected(FirstLine(DropNuls(chunks[0])))
  }

  /** Unless the check of the first read closes the connection, the state depends on the bytes
      received only: it is the parse of the whole stream without NULs. */
  lemma {:induction false} ReadsParseStream(chunks: seq<Text>)
    requires !FirstReadRejected(chunks)
    ensures var c, p := After(chunks), Parse(DropNuls(Join(chunks)));
            && c.handedOn == p.lines && c.open == p.open
            && (c.open ==> c.lineBuffer == p.rest)
            && (c.firstMessage ==> chunks == [])
    decreases |chunks|
  {
    if chunks != [] {
      var n := |chunks| - 1;
      ReadsParseStream(chunks[..n]);
      assert n > 0 ==> chunks[..n][0] == chunks[0];
      var before, data := DropNuls(Join(chunks[..n])), DropNuls(chunks[n]);
      DropNulsOfSum(Join(chunks[..n]), chunks[n]);
      ParseInTwo(before, data);
    }
  }

  lemma {:induction false} RejectedFirstRead(chunks: seq<Text>)
    requires FirstReadRejected(chunks)
    ensures After(chunks) == Fresh.(open := false)
    decreases |chunks|
  {
    if |chunks| > 1 {
      RejectedFirstRead(chunks[..|chunks| - 1]);
    } else {
      assert chunks[..0] == [];
    }
  }

  // Trimming a line that grows

  lemma {:induction false} TrimEndGrows(t: Text, x: Text)
    ensures TrimEnd(t) <= TrimEnd(t + x)
    decreases |x|
  {
    TrimEndIsPrefix(t);
    if x == [] {
      assert t + x == t;
    } else {
      var n := |x| - 1;
      TrimEndGrows(t, x[..n]);
      assert (t + x)[..|t + x| - 1] == t + x[..n];
    }
  }

  lemma {:induction false} TrimEndIsPrefix(t: Text)
    ensures TrimEnd(t) <= t
  {
    if t != [] && IsSpace(t[|t| - 1]) {
      TrimEndIsPrefix(t[..|t| - 1]);
    }
  }

  lemma {:induction false} TrimStartGrows(p: Text, x: Text)
    ensures TrimStart(p) != [] ==> TrimStart(p + x) == TrimStart(p) + x
    decreases |p|
  {
    if p != [] && IsSpace(p[0]) {
      TrimStartGrows(p[1..], x);
      assert (p + x)[1..] == p[1..] + x;
    }
  }

  lemma TrimGrows(p: Text, x: Text)
    ensures Trim(p) <= Trim(p + x)
  {
    TrimStartGrows(p, x);
    if TrimStart(p) != [] {
      TrimEndGrows(TrimStart(p), x);
    } else {
      assert Trim(p) == [];
    }
  }

  lemma PrefixTransitive(a: Text, b: Text, c: Text)
    requires a <= b && b <= c
    ensures a <= c
  {
    assert a == b[..|a|] == c[..|a|];
  }

  /** A line that was rejected early is rejected complete, unless all it was is "SM". */
  lemma RejectionLasts(a: Text, b: Text)
    requires Rejected(a) && a <= b
    ensures Rejected(b) || (a == SM && b != SM)
  {
    if a != SM {
      if PRI_HTTP_2 <= a {
        PrefixTransitive(PRI_HTTP_2, a, b);
      } else if GET <= a {
        PrefixTransitive(GET, a, b);
      } else if POST <= a {
        PrefixTransitive(POST, a, b);
      } else if PUT <= a {
        PrefixTransitive(PUT, a, b);
      } else if DELETE <= a {
        PrefixTransitive(DELETE, a, b);
      } else if HEAD <= a {
        PrefixTransitive(HEAD, a, b);
      } else {
        PrefixTransitive(OPTIONS, a, b);
      }
    }
  }

  /** The first line of the first part of a text, against the first line of the text. */
  lemma FirstLineGrows(x: Text, y: Text)
    ensures LineEnd(x) < |x| ==> FirstLine(x) == FirstLine(x + y)
    ensures FirstLine(x) <= FirstLine(x + y)
  {
    if LineEnd(x) < |x| {
      FirstLineComplete(x, y);
    } else {
      FirstLineIncomplete(x, y);
    }
  }

  lemma FirstLineComplete(x: Text, y: Text)
    requires LineEnd(x) < |x|
    ensures FirstLine(x) == FirstLine(x + y)
  {
    LineEndOfSum(x, y);
    assert (x + y)[..LineEnd(x)] == x[..LineEnd(x)];
  }

  lemma FirstLineIncomplete(x: Text, y: Text)
    requires LineEnd(x) == |x|
    ensures FirstLine(x) <= FirstLine(x + y)
  {
    var more := FirstLineOfSum(x, y);
    TrimGrows(x, more);
  }

  lemma FirstLineOfSum(x: Text, y: Text) returns (more: Text)
    requires LineEnd(x) == |x|
    ensures FirstLine(x) == Trim(x) && FirstLine(x + y) == Trim(x + more)
  {
    LineEndOfSum(x, y);
    more := y[..LineEnd(y)];
    SliceOfSum(x, y, LineEnd(y));
  }

  lemma SliceOfSum(x: Text, y: Text, m: nat)
    requires m <= |y|
    ensures (x + y)[..|x| + m] == x + y[..m] && x[..|x|] == x
  {
  }

  // When the chunking matters

  lemma {:induction false} JoinFromFirst(chunks: seq<Text>)
    requires chunks != []
    ensures Join(chunks) == chunks[0] + Join(chunks[1..])
    decreases |chunks|
  {
    var n := |chunks| - 1;
    if n == 0 {
      assert chunks[..0] == [] && chunks[1..] == [];
      assert Join(chunks) == Join([]) + chunks[0];
    } else {
      JoinFromFirst(chunks[..n]);
      var mid := chunks[1..n];
      assert chunks[..n][1..] == mid && chunks[1..][..n - 1] == mid;
      assert Join(chunks[1..]) == Join(mid) + chunks[n];
      Utf8.Associative(chunks[0], Join(mid), chunks[n]);
    }
  }

  /** A complete first line that starts with "SM" and goes on. */
  predicate StartsWithSm(text: Text) {
    LineEnd(text) < |text| && SM <= FirstLine(text) && FirstLine(text) != SM
  }

  lemma LinesOfFirst(text: Text)
    requires LineEnd(text) < |text| && FirstLine(text) != []
    ensures Rejected(FirstLine(text)) ==> Parse(text).lines == []
    ensures !Rejected(FirstLine(text)) ==> Parse(text).lines != []
  {
  }

  lemma SmGoesOn(line: Text)
    requires SM <= line && line != SM
    ensures line != [] && !Rejected(line)
  {
    assert line[0] == 83;
  }

  /** Some first read sees "SM" and nothing else of the first line. */
  ghost predicate SmSeenAlone(stream: Text) {
    exists i: nat :: SmCut(stream, i)
  }

  predicate SmCut(stream: Text, i: nat) {
    i <= |stream| && |Utf8.Encode(stream[..i])| <= READ_SIZE && FirstLine(DropNuls(stream[..i])) == SM
  }

  predicate IsRead(chunk: Text) {
    chunk != [] && |Utf8.Encode(chunk)| <= READ_SIZE
  }

  /** Reads of whole characters: none is empty, which would be the end, and none is longer than the read
      buffer. */
  ghost predicate ReadsOf(chunks: seq<Text>, stream: Text) {
    Join(chunks) == stream && forall i | 0 <= i < |chunks| :: IsRead(chunks[i])
  }

  /** A first read that is rejected, of a stream whose lines it should have handed on. */
  lemma RejectedTooEarly(chunks: seq<Text>, stream: Text)
    requires ReadsOf(chunks, stream) && FirstReadRejected(chunks)
    requires Parse(DropNuls(stream)).lines != []
    ensures StartsWithSm(DropNuls(stream)) && SmSeenAlone(stream)
  {
    JoinFromFirst(chunks);
    DropNulsOfSum(chunks[0], Join(chunks[1..]));
    var data, rest := DropNuls(chunks[0]), DropNuls(Join(chunks[1..]));
    var first, whole := FirstLine(data), FirstLine(data + rest);
    FirstLineGrows(data, rest);
    RejectionLasts(first, whole);
    LinesOfFirst(data + rest);
    assert stream[..|chunks[0]|] == chunks[0];
    assert SmCut(stream, |chunks[0]|);
  }

  /** A stream read character by character. */
  function SingleReads(stream: Text): (chunks: seq<Text>) {
    if stream == [] then [] else [stream[..1]] + SingleReads(stream[1..])
  }

  lemma {:induction false} SingleReadsOf(stream: Text)
    ensures ReadsOf(SingleReads(stream), stream)
    decreases |stream|
  {
    if stream != [] {
      SingleReadsOf(stream[1..]);
      assert Utf8.Encode(stream[..1][1..]) == [];
      OneMoreRead(stream[..1], SingleReads(stream[1..]), stream[1..]);
      assert stream == stream[..1] + stream[1..];
    }
  }

  lemma OneMoreRead(read: Text, chunks: seq<Text>, rest: Text)
    requires IsRead(read) && ReadsOf(chunks, rest)
    ensures ReadsOf([read] + chunks, read + rest)
  {
    JoinFromFirst([read] + chunks);
    assert ([read] + chunks)[1..] == chunks;
  }

  lemma FirstReadThenSingles(stream: Text, i: nat) returns (chunks: seq<Text>)
    requires i <= |stream| && IsRead(stream[..i])
    ensures ReadsOf(chunks, stream) && chunks != [] && chunks[0] == stream[..i]
  {
    SingleReadsOf(stream[i..]);
    chunks := [stream[..i]] + SingleReads(stream[i..]);
    OneMoreRead(stream[..i], SingleReads(stream[i..]), stream[i..]);
    assert stream == stream[..i] + stream[i..];
  }

  /** A stream that loses its lines: the first read ends where "SM" is all there is. */
  lemma SmIsLost(stream: Text) returns (chunks: seq<Text>)
    requires StartsWithSm(DropNuls(stream)) && SmSeenAlone(stream)
    ensures ReadsOf(chunks, stream)
    ensures After(chunks).handedOn == [] != Parse(DropNuls(stream)).lines
  {
    var i: nat :| SmCut(stream, i);
    assert i > 0 by {
      assert DropNuls([]) == [] && Trim([]) == [];
    }
    chunks := FirstReadThenSingles(stream, i);
    assert FirstReadRejected(chunks);
    RejectedFirstRead(chunks);
    SmGoesOn(FirstLine(DropNuls(stream)));
    LinesOfFirst(DropNuls(stream));
  }

  /** The lines handed on do not depend on how the stream is cut into reads of whole characters if and only
      if its first line does not start with "SM" and go on, or no first read can end right after the "SM". */
  lemma ChunkingInvariantIff(stream: Text)
    ensures (forall chunks | ReadsOf(chunks, stream) :: After(chunks).handedOn == Parse(DropNuls(stream)).lines)
            <==> !(StartsWithSm(DropNuls(stream)) && SmSeenAlone(stream))
  {
    if StartsWithSm(DropNuls(stream)) && SmSeenAlone(stream) {
      var chunks := SmIsLost(stream);
      assert ReadsOf(chunks, stream);
    } else {
      forall chunks | ReadsOf(chunks, stream)
        ensures After(chunks).handedOn == Parse(DropNuls(stream)).lines
      {
        SameLines(chunks, stream);
      }
    }
  }

  lemma SameLines(chunks: seq<Text>, stream: Text)
    requires ReadsOf(chunks, stream)
    requires !(StartsWithSm(DropNuls(stream)) && SmSeenAlone(stream))
    ensures After(chunks).handedOn == Parse(DropNuls(stream)).lines
  {
    if FirstReadRejected(chunks) {
      RejectedFirstRead(chunks);
      if Parse(DropNuls(stream)).lines != [] {
        RejectedTooEarly(chunks, stream);
      }
    } else {
      ReadsParseStream(chunks);
    }
  }

  // Streams of JSON lines

  const BRACE: Utf8.Scalar := '{' as int

  /** Every line, the unterminated last one included, is blank or starts with a brace. */
  ghost predicate JsonLines(text: Text)
    decreases |text|
  {
    var n := LineEnd(text);
    && (FirstLine(text) == [] || FirstLine(text)[0] == BRACE)
    && (n < |text| ==> JsonLines(text[n + 1..]))
  }

  function Split(text: Text): (seq<Text>, Text)
    decreases |text|
  {
    var n := LineEnd(text);
    if n == |text| then ([], text)
    else
      var (lines, tail) := Split(text[n + 1..]);
      ([text[..n]] + lines, tail)
  }

  function TrimmedNonBlank(lines: seq<Text>): seq<Text> {
    if lines == [] then []
    else
      var rest := TrimmedNonBlank(lines[1..]);
      if Trim(lines[0]) == [] then rest else [Trim(lines[0])] + rest
  }

  lemma {:induction false} ParseOfJson(text: Text)
    requires JsonLines(text)
    ensures var (lines, tail) := Split(text);
            Parse(text) == Parsed(TrimmedNonBlank(lines), tail, true)
    decreases |text|
  {
    var n := LineEnd(text);
    if n < |text| {
      ParseOfJson(text[n + 1..]);
      var (lines, tail) := Split(text[n + 1..]);
      assert ([text[..n]] + lines)[1..] == lines;
      assert FirstLine(text) == Trim(text[..n]);
    }
  }

  /** For a stream of JSON lines, every split into reads hands on exactly the trimmed non-blank lines
      of the stream without NULs, keeps exactly the unterminated tail, and stays open. */
  lemma JsonStreamFraming(chunks: seq<Text>)
    requires JsonLines(DropNuls(Join(chunks)))
    ensures var (lines, tail) := Split(DropNuls(Join(chunks)));
            var c := After(chunks);
            c.open && c.handedOn == TrimmedNonBlank(lines) && c.lineBuffer == tail
  {
    if chunks != [] {
      JoinFromFirst(chunks);
      DropNulsOfSum(chunks[0], Join(chunks[1..]));
      JsonFirstRead(DropNuls(chunks[0]), DropNuls(Join(chunks[1..])));
    }
    ReadsParseStream(chunks);
    ParseOfJson(DropNuls(Join(chunks)));
  }

  lemma JsonFirstRead(x: Text, y: Text)
    requires JsonLines(x + y)
    ensures !Rejected(FirstLine(x))
  {
    FirstLineGrows(x, y);
    var line, whole := FirstLine(x), FirstLine(x + y);
    assert line != [] ==> line[0] == whole[0];
  }

  // Reads that end inside a character

  lemma {:induction false} DropNulBytesOfSum(x: Bytes, y: Bytes)
    ensures DropNulBytes(x + y) == DropNulBytes(x) + DropNulBytes(y)
  {
    if y == [] {
      assert x + y == x;
    } else {
      DropNulBytesOfSum(x, y[..|y| - 1]);
      assert (x + y)[..|x + y| - 1] == x + y[..|y| - 1];
    }
  }

  lemma {:induction false} NoNulBytes(bs: Bytes)
    requires 0 !in bs
    ensures DropNulBytes(bs) == bs
    decreases |bs|
  {
    if bs != [] {
      NoNulBytes(bs[..|bs| - 1]);
    }
  }

  lemma NulOfOne(c: Utf8.Scalar)
    ensures DropNulBytes(Utf8.EncodeOne(c)) == if c == 0 then [] else Utf8.EncodeOne(c)
  {
    Utf8.EncodedOne(c);
    if c == 0 {
      assert Utf8.EncodeOne(0) == [0] && [0][..0] == [];
    } else {
      NoNulBytes(Utf8.EncodeOne(c));
    }
  }

  lemma DropNulsFirst(text: Text)
    requires text != []
    ensures DropNuls(text) == (if text[0] == 0 then [] else [text[0]]) + DropNuls(text[1..])
  {
    DropNulsOfSum([text[0]], text[1..]);
    assert [text[0]] + text[1..] == text;
    assert [text[0]][..0] == [];
  }

  /** Dropping NULs before decoding is dropping them from the text. */
  lemma {:induction false} DropNulsEncoded(text: Text)
    ensures DropNulBytes(Utf8.Encode(text)) == Utf8.Encode(DropNuls(text))
    decreases |text|
  {
    if text != [] {
      DropNulsEncoded(text[1..]);
      DropNulBytesOfSum(Utf8.EncodeOne(text[0]), Utf8.Encode(text[1..]));
      NulOfOne(text[0]);
      DropNulsFirst(text);
      var rest := DropNuls(text[1..]);
      if text[0] == 0 {
        assert [] + rest == rest;
        assert [] + Utf8.Encode(rest) == Utf8.Encode(rest);
      } else {
        assert ([text[0]] + rest)[1..] == rest;
      }
    }
  }

  /** The reads without their NULs. */
  function Cleaned(parts: seq<Bytes>): (clean: seq<Bytes>)
    ensures |clean| == |parts| && forall i | 0 <= i < |parts| :: clean[i] == DropNulBytes(parts[i])
  {
    seq(|parts|, i requires 0 <= i < |parts| => DropNulBytes(parts[i]))
  }

  lemma {:induction false} CleanedJoin(parts: seq<Bytes>)
    ensures Utf8.Join(Cleaned(parts)) == DropNulBytes(Utf8.Join(parts))
    decreases |parts|
  {
    if parts != [] {
      CleanedJoin(parts[1..]);
      assert Cleaned(parts)[1..] == Cleaned(parts[1..]);
      DropNulBytesOfSum(parts[0], Utf8.Join(parts[1..]));
    }
  }

  /** For every stream of UTF-8 text and every cutting into reads: the texts of the reads make up the text
      without its NULs if and only if no read, its NULs dropped, ends inside a character. */
  lemma TextArrivesIff(parts: seq<Bytes>, text: Text)
    requires Utf8.Join(parts) == Utf8.Encode(text)
    ensures Utf8.Texts(Cleaned(parts)) == DropNuls(text) <==> Utf8.AllWhole(Cleaned(parts))
  {
    CleanedJoin(parts);
    DropNulsEncoded(text);
    Utf8.ReadsDecodeIff(Cleaned(parts), DropNuls(text));
  }

  // Reads of bytes that end between characters

  predicate EncodingOf(part: Bytes, chunk: Text) {
    part == Utf8.Encode(chunk)
  }

  ghost predicate EncodingsOf(parts: seq<Bytes>, chunks: seq<Text>) {
    |parts| == |chunks| && forall i | 0 <= i < |parts| :: EncodingOf(parts[i], chunks[i])
  }

  lemma {:induction false} SameConnection(parts: seq<Bytes>, chunks: seq<Text>)
    requires EncodingsOf(parts, chunks)
    ensures AfterBytes(parts) == After(chunks)
    decreases |parts|
  {
    if parts != [] {
      var n := |parts| - 1;
      SameConnection(parts[..n], chunks[..n]);
      assert EncodingOf(parts[n], chunks[n]);
      DropNulsEncoded(chunks[n]);
      Utf8.DecodeEncoded(DropNuls(chunks[n]));
    }
  }

  /** The reads of a connection, as bytes. */
  ghost predicate ByteReadsOf(parts: seq<Bytes>, stream: Text) {
    Utf8.Join(parts) == Utf8.Encode(stream) && forall i | 0 <= i < |parts| :: 1 <= |parts[i]| <= READ_SIZE
  }

  lemma {:induction false} ChunksOf(parts: seq<Bytes>) returns (chunks: seq<Text>)
    requires Utf8.AllWhole(parts)
    ensures EncodingsOf(parts, chunks)
    decreases |parts|
  {
    if parts == [] {
      chunks := [];
    } else {
      var n := |parts| - 1;
      assert Utf8.Whole(parts[n]);
      var text :| parts[n] == Utf8.Encode(text);
      var first := ChunksOf(parts[..n]);
      chunks := first + [text];
      EncodingsGrow(parts, first, text);
    }
  }

  lemma EncodingsGrow(parts: seq<Bytes>, first: seq<Text>, text: Text)
    requires parts != [] && EncodingsOf(parts[..|parts| - 1], first) && EncodingOf(parts[|parts| - 1], text)
    ensures EncodingsOf(parts, first + [text])
  {
    forall i | 0 <= i < |parts|
      ensures EncodingOf(parts[i], (first + [text])[i])
    {
      if i < |parts| - 1 {
        assert EncodingOf(parts[..|parts| - 1][i], first[i]);
      }
    }
  }

  lemma {:induction false} JoinEncodings(parts: seq<Bytes>, chunks: seq<Text>)
    requires EncodingsOf(parts, chunks)
    ensures Utf8.Join(parts) == Utf8.Encode(Join(chunks))
    decreases |parts|
  {
    if parts != [] {
      assert EncodingOf(parts[0], chunks[0]);
      assert forall i | 0 <= i < |parts| - 1 :: parts[1..][i] == parts[i + 1] && chunks[1..][i] == chunks[i + 1]
                                               && EncodingOf(parts[i + 1], chunks[i + 1]);
      JoinEncodings(parts[1..], chunks[1..]);
      JoinFromFirst(chunks);
      Utf8.EncodeSum(chunks[0], Join(chunks[1..]));
    }
  }

  /** The reads of bytes that end between characters are the encodings of reads of whole characters. */
  lemma ByteReadsAreReads(parts: seq<Bytes>, chunks: seq<Text>, stream: Text)
    requires EncodingsOf(parts, chunks)
    ensures ByteReadsOf(parts, stream) <==> ReadsOf(chunks, stream)
  {
    JoinEncodings(parts, chunks);
    Utf8.DecodeEncoded(Join(chunks));
    Utf8.DecodeEncoded(stream);
    forall i | 0 <= i < |parts|
      ensures 1 <= |parts[i]| <= READ_SIZE <==> IsRead(chunks[i])
    {
      assert EncodingOf(parts[i], chunks[i]);
    }
  }

  /** For a stream of UTF-8 bytes: the reads that end between characters all hand on the lines of the text
      if and only if the stream is not one that "SM" can cut short. */
  lemma ByteChunkingIff(stream: Text)
    ensures (forall parts | ByteReadsOf(parts, stream) && Utf8.AllWhole(parts) ::
               AfterBytes(parts).handedOn == Parse(DropNuls(stream)).lines)
            <==> !(StartsWithSm(DropNuls(stream)) && SmSeenAlone(stream))
  {
    if StartsWithSm(DropNuls(stream)) && SmSeenAlone(stream) {
      var chunks := SmIsLost(stream);
      var parts := Encoded(chunks);
      SameConnection(parts, chunks);
      ByteReadsAreReads(parts, chunks, stream);
      assert ByteReadsOf(parts, stream) && Utf8.AllWhole(parts);
    } else {
      forall parts | ByteReadsOf(parts, stream) && Utf8.AllWhole(parts)
        ensures AfterBytes(parts).handedOn == Parse(DropNuls(stream)).lines
      {
        var chunks := ChunksOf(parts);
        SameConnection(parts, chunks);
        ByteReadsAreReads(parts, chunks, stream);
        SameLines(chunks, stream);
      }
    }
  }

  function Encoded(chunks: seq<Text>): (parts: seq<Bytes>)
    ensures EncodingsOf(parts, chunks) && Utf8.AllWhole(parts)
  {
    seq(|chunks|, i requires 0 <= i < |chunks| => Utf8.Encode(chunks[i]))
  }

  lemma DropNone(a: Utf8.Octet, b: Utf8.Octet)
    requires a != 0 && b != 0
    ensures DropNulBytes([a]) == [a] && DropNulBytes([a, b]) == [a, b]
  {
    NoNulBytes([a]);
    NoNulBytes([a, b]);
  }

  lemma LineWithoutEnd(line: Text)
    requires NEWLINE !in line
    ensures LineEnd(line) == |line| && LineEnd(line + [NEWLINE]) == |line|
  {
    LineEndOfSum(line, [NEWLINE]);
  }

  lemma NothingToTrim(line: Text)
    requires line != [] && !IsSpace(line[0]) && !IsSpace(line[|line| - 1])
    ensures Trim(line) == line
  {
  }

  lemma OneLine(line: Text)
    requires line != [] && Trim(line) == line && NEWLINE !in line && !Rejected(line)
    ensures Parse(line + [NEWLINE]) == Parsed([line], [], true)
  {
    LineWithoutEnd(line);
    ParseCut(line + [NEWLINE], line, []);
    assert Parse([]) == Parsed([], [], true);
  }

  lemma NotRejected(line: Text)
    requires line != [] && line[0] >= 128
    ensures !Rejected(line)
  {
  }

  /** An instance: U+00E9 and a newline, read as one byte and two. The character arrives as two replacement
      characters. */
  lemma CutCharacterInstance()
    ensures ByteReadsOf([[0xC3], [0xA9, 10]], [0xE9, 10])
    ensures AfterBytes([[0xC3], [0xA9, 10]]).handedOn == [[0xFFFD, 0xFFFD]] && Parse([0xE9, 10]).lines == [[0xE9]]
  {
    CutReads();
    CutFirstRead();
    CutSecondRead();
    var parts: seq<Bytes> := [[0xC3], [0xA9, 10]];
    assert parts[..1] == [[0xC3]];
    NothingToTrim([0xE9]);
    NotRejected([0xE9]);
    OneLine([0xE9]);
    assert [0xE9] + [NEWLINE] == [0xE9, 10];
  }

  lemma CutReads()
    ensures ByteReadsOf([[0xC3], [0xA9, 10]], [0xE9, 10])
  {
    var parts: seq<Bytes>, text: Text := [[0xC3], [0xA9, 10]], [0xE9, 10];
    assert parts[1..] == [[0xA9, 10]] && parts[1..][1..] == [];
    assert Utf8.Join(parts) == [0xC3] + ([0xA9, 10] + []);
    assert text[1..] == [10] && text[1..][1..] == [];
    assert Utf8.Encode(text) == [0xC3, 0xA9] + ([10] + []);
  }

  lemma CutFirstRead()
    ensures AfterBytes([[0xC3]]) == Conn([0xFFFD], false, true, [])
  {
    DropNone(0xC3, 10);
    var x: Text := [0xFFFD];
    assert ReadText([0xC3]) == x;
    assert [[0xC3]][..0] == [];
    LineWithoutEnd(x);
    NothingToTrim(x);
    NotRejected(x);
    assert x[..1] == x && [] + x == x;
    assert Parse(x) == Parsed([], x, true);
  }

  lemma CutSecondRead()
    ensures ReceivedData(Conn([0xFFFD], false, true, []), ReadText([0xA9, 10])).handedOn == [[0xFFFD, 0xFFFD]]
  {
    DropNone(0xA9, 10);
    var x: Text, xx: Text := [0xFFFD], [0xFFFD, 0xFFFD];
    assert [0xA9, 10][1..] == [10];
    assert ReadText([0xA9, 10]) == x + [NEWLINE];
    NothingToTrim(xx);
    NotRejected(xx);
    OneLine(xx);
    assert x + (x + [NEWLINE]) == xx + [NEWLINE];
  }

  // What is trimmed, dropped and rejected

  /** The characters of the Unicode property White_Space. */
  lemma SpacesAre(c: Utf8.Scalar)
    ensures IsSpace(c) <==>
            c in [9, 10, 11, 12, 13, 32, 0x85, 0xA0, 0x1680, 0x2000, 0x2001, 0x2002, 0x2003, 0x2004, 0x2005, 0x2006, 0x2007,
                  0x2008, 0x2009, 0x200A, 0x2028, 0x2029, 0x202F, 0x205F, 0x3000]
  {
  }

  lemma {:induction false} TrimStartIs(s: Text) returns (i: nat)
    ensures i <= |s| && TrimStart(s) == s[i..]
    ensures forall k | 0 <= k < i :: IsSpace(s[k])
    ensures i < |s| ==> !IsSpace(s[i])
  {
    i := 0;
    if s != [] && IsSpace(s[0]) {
      var j := TrimStartIs(s[1..]);
      i := j + 1;
      assert forall k | 1 <= k < i :: s[k] == s[1..][k - 1];
    }
  }

  lemma {:induction false} TrimEndIs(s: Text) returns (j: nat)
    ensures j <= |s| && TrimEnd(s) == s[..j]
    ensures forall k | j <= k < |s| :: IsSpace(s[k])
    ensures j > 0 ==> !IsSpace(s[j - 1])
  {
    j := |s|;
    if s != [] && IsSpace(s[|s| - 1]) {
      j := TrimEndIs(s[..|s| - 1]);
    }
  }

  /** Trimming cuts the white space at both ends and nothing else. */
  lemma TrimIs(s: Text) returns (i: nat, j: nat)
    ensures i <= j <= |s| && Trim(s) == s[i..j]
    ensures forall k | 0 <= k < i || j <= k < |s| :: IsSpace(s[k])
    ensures i < j ==> !IsSpace(s[i]) && !IsSpace(s[j - 1])
  {
    i := TrimStartIs(s);
    var n := TrimEndIs(s[i..]);
    j := i + n;
    forall k | j <= k < |s|
      ensures IsSpace(s[k])
    {
      assert s[k] == s[i..][k - i];
    }
  }

  predicate StartsWith(line: Text, s: string) {
    |s| <= |line| && forall i | 0 <= i < |s| :: line[i] == s[i] as int
  }

  lemma PrefixIs(line: Text, prefix: Text, s: string)
    requires |prefix| == |s| && forall i | 0 <= i < |s| :: prefix[i] == s[i] as int
    ensures prefix <= line <==> StartsWith(line, s)
  {
  }

  /** The lines that close a connection. */
  lemma RejectedIff(line: Text)
    ensures Rejected(line) <==>
            || (|line| == 2 && StartsWith(line, "SM")) || StartsWith(line, "PRI * HTTP/2")
            || StartsWith(line, "GET ") || StartsWith(line, "POST ") || StartsWith(line, "PUT ")
            || StartsWith(line, "DELETE ") || StartsWith(line, "HEAD ") || StartsWith(line, "OPTIONS ")
  {
    PrefixIs(line, SM, "SM");
    PrefixIs(line, PRI_HTTP_2, "PRI * HTTP/2");
    PrefixIs(line, GET, "GET ");
    PrefixIs(line, POST, "POST ");
    PrefixIs(line, PUT, "PUT ");
    PrefixIs(line, DELETE, "DELETE ");
    PrefixIs(line, HEAD, "HEAD ");
    PrefixIs(line, OPTIONS, "OPTIONS ");
  }

  /** Complete JSON lines followed by a rejected one: the lines before it are handed on and the connection
      is closed, whatever follows. */
  lemma RejectedLineCloses(x: Text, line: Text, y: Text)
    requires JsonLines(x) && Split(x).1 == []
    requires NEWLINE !in line && Rejected(Trim(line))
    ensures Parse(x + (line + [NEWLINE] + y)) == Parsed(TrimmedNonBlank(Split(x).0), y, false)
  {
    var more := line + [NEWLINE] + y;
    ParseOfJson(x);
    ParseInTwo(x, more);
    assert [] + more == more;
    LineEndIs(line, [NEWLINE] + y);
    assert line + ([NEWLINE] + y) == more;
    assert more[..|line|] == line && more[|line| + 1..] == y;
    ParseCut(more, Trim(line), y);
    assert Trim(line) != [];
  }

  lemma {:induction false} LineEndIs(line: Text, rest: Text)
    requires NEWLINE !in line && rest != [] && rest[0] == NEWLINE
    ensures LineEnd(line + rest) == |line|
  {
    if line == [] {
      assert line + rest == rest;
    } else {
      LineEndIs(line[1..], rest);
      assert (line + rest)[1..] == line[1..] + rest;
    }
  }

  // How far "SM" may be from the start

  function Blanks(n: nat): (s: Text)
    ensures |s| == n && forall i | 0 <= i < n :: s[i] == 32
  {
    if n == 0 then [] else Blanks(n - 1) + [32]
  }

  lemma {:induction false} DropNulsSubset(s: Text, x: Utf8.Scalar)
    ensures x in DropNuls(s) ==> x in s
    ensures 0 !in s ==> DropNuls(s) == s
    decreases |s|
  {
    if s != [] {
      var n := |s| - 1;
      DropNulsSubset(s[..n], x);
      assert s == s[..n] + [s[n]];
    }
  }

  lemma {:induction false} EncodeLength(s: Text)
    ensures |Utf8.Encode(s)| >= |s|
    ensures (forall i | 0 <= i < |s| :: s[i] < 128) ==> |Utf8.Encode(s)| == |s|
    decreases |s|
  {
    if s != [] {
      EncodeLength(s[1..]);
    }
  }

  lemma {:induction false} NoLineEnd(s: Text)
    requires NEWLINE !in s
    ensures LineEnd(s) == |s|
  {
    if s != [] {
      NoLineEnd(s[1..]);
    }
  }

  lemma BlanksThenSm(n: nat)
    ensures FirstLine(Blanks(n) + SM) == SM
  {
    var s := Blanks(n) + SM;
    NoLineEnd(s);
    assert s[..|s|] == s;
    var i, j := TrimIs(s);
    assert s[n] == 83 && s[n + 1] == 77;
    assert i == n && j == n + 2;
    assert s[n..n + 2] == SM;
  }

  lemma SmInFirstLine(s: Text)
    requires FirstLine(DropNuls(s)) == SM
    ensures 77 in s
  {
    var t := DropNuls(s);
    var i, j := TrimIs(t[..LineEnd(t)]);
    assert t[..LineEnd(t)][i..j][1] == 77;
    assert 77 in t;
    DropNulsSubset(s, 77);
  }

  /** After n blanks, "SM" can be all that a first read sees of its line if and only if it ends within 1024
      bytes. */
  lemma SmAfterBlanks(n: nat, rest: Text)
    ensures SmSeenAlone(Blanks(n) + SM + rest) <==> n + 2 <= 1024
  {
    var head, stream := Blanks(n) + SM, Blanks(n) + SM + rest;
    if n + 2 <= 1024 {
      assert stream[..n + 2] == head;
      EncodeLength(head);
      DropNulsSubset(head, 0);
      BlanksThenSm(n);
      assert SmCut(stream, n + 2);
    } else if i: nat :| SmCut(stream, i) {
      SmInFirstLine(stream[..i]);
      assert i >= n + 2;
      EncodeLength(stream[..i]);
      assert false;
    }
  }
}
