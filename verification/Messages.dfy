/** SMTP payload: dot-stuffing on the way out, and its inverse with the size limits on the way in. */
module Messages {
  import opened Wrappers
  import opened Lines

  const DOT: byte := 46
  const CRLF: seq<byte> := [CR, LF]
  const TERMINATOR: seq<byte> := [DOT] + CRLF

  const MAX_LINE_BYTES: nat := 65536
  const MAX_MESSAGE_BYTES: nat := 64 * 1024 * 1024
  const ABORT_MESSAGE_BYTES: nat := 256 * 1024 * 1024

  // ..... Out .....

  function StuffedLine(line: seq<byte>): seq<byte> {
    var t := Trimmed(line);
    (if t != [] && t[0] == DOT then [DOT] else []) + t + CRLF
  }

  /** The payload without its terminator. */
  function StuffedLines(m: seq<byte>): seq<byte> {
    if m == [] then [] else StuffedLine(FirstLine(m)) + StuffedLines(m[|FirstLine(m)|..])
  }

  function Stuffed(m: seq<byte>): seq<byte> {
    StuffedLines(m) + TERMINATOR
  }

  /** The message with every line ended by exactly one CRLF. */
  function Normalised(m: seq<byte>): seq<byte> {
    if m == [] then [] else Trimmed(FirstLine(m)) + CRLF + Normalised(m[|FirstLine(m)|..])
  }

  // ..... In .....

  datatype Body = Message(bytes: seq<byte>) | TooLarge | Eof | Broken(error: IoError)

  function Unstuffed(trimmed: seq<byte>): seq<byte> {
    if trimmed != [] && trimmed[0] == DOT then trimmed[1..] else trimmed
  }

  /** What has been collected of a message still being read. */
  datatype Collected = Collected(message: seq<byte>, seen: nat, oversize: bool)

  /** What one line does to the message being read. */
  function Collect(c: Collected, line: seq<byte>): Result<Collected, Body> {
    var trimmed := Trimmed(line);
    var seen := c.seen + |line|;
    if trimmed == [DOT] then Err(if c.oversize then TooLarge else Message(c.message))
    else if seen > ABORT_MESSAGE_BYTES then Err(Broken(OtherError))
    else if seen > MAX_MESSAGE_BYTES then Ok(Collected(c.message, seen, true))
    else Ok(Collected(c.message + Unstuffed(trimmed) + CRLF, seen, c.oversize))
  }

  const NOTHING_YET := Collected([], 0, false)

  /** The specification of the body reader, with `c` collected so far. */
  function ReadBody(fills: seq<Fill>, c: Collected): (Body, seq<Fill>)
    decreases Size(fills)
  {
    var (r, rest) := ReadLine(fills, [], MAX_LINE_BYTES);
    if r.Failed? then (Broken(r.error), rest)
    else if r.bytes == [] then (Eof, rest)
    else
      ReadLineShrinks(fills, [], MAX_LINE_BYTES);
      match Collect(c, r.bytes)
      case Err(body) => (body, rest)
      case Ok(more) => ReadBody(rest, more)
  }

  // ..... One stuffed line .....

  // A line as it goes out is one line on the wire, and trims back to what was stuffed.
  lemma StuffedLineOnWire(line: seq<byte>, tail: seq<byte>)
    requires Unbroken(Trimmed(line))
    ensures var w := StuffedLine(line);
      && FirstLine(w + tail) == w
      && Trimmed(w) == w[..|w| - 2] != [DOT]
      && Unstuffed(Trimmed(w)) == Trimmed(line)
      && |w| >= 2 && w[|w| - 1] == LF
  {
    var w := StuffedLine(line);
    var head := w[..|w| - 2];
    assert w == head + CRLF && w[|w| - 1] == LF;
    assert w + tail == (head + [CR]) + ([LF] + tail);
    assert ([LF] + tail)[0] == LF;
    FirstLineOfSplit(head + [CR], [LF] + tail);
    TrimmedLast(line);
    TrimmedUnique(w, |head|);
  }

  lemma TrimmedFirstLineUnbroken(m: seq<byte>)
    ensures Unbroken(Trimmed(FirstLine(m)))
  {
    FirstLineUnbroken(m);
    TrimmedLast(FirstLine(m));
  }

  lemma TrimmedLast(line: seq<byte>)
    ensures var t := Trimmed(line);
      && (t != [] ==> !IsEol(t[|t| - 1]))
      && Trimmed(t) == t
  {
    var t := Trimmed(line);
    TrimmedUnique(t, |t|);
  }

  lemma TerminatorOnWire(tail: seq<byte>)
    ensures FirstLine(TERMINATOR + tail) == TERMINATOR
    ensures Trimmed(TERMINATOR) == [DOT]
  {
    assert TERMINATOR + tail == [DOT, CR] + ([LF] + tail);
    assert ([LF] + tail)[0] == LF;
    FirstLineOfSplit([DOT, CR], [LF] + tail);
    TrimmedUnique(TERMINATOR, 1);
    assert TERMINATOR[..1] == [DOT];
  }

  // ..... Round trip .....

  /** Every line of the payload is short enough for every way of buffering it. */
  predicate LinesFit(m: seq<byte>) {
    m != [] ==>
      && |StuffedLine(FirstLine(m))| <= 65537
      && LinesFit(m[|FirstLine(m)|..])
  }

  /** What the reader makes of a payload of `size` bytes. */
  function Outcome(message: seq<byte>, size: nat): Body {
    if size > MAX_MESSAGE_BYTES then TooLarge else Message(message)
  }

  // One line of a known stream, read off its front.
  lemma ReadsLine(fills: seq<Fill>, w: seq<byte>, after: seq<byte>)
    requires Clean(fills) && Bytes(fills) == w + after
    requires FirstLine(w + after) == w != [] && Fits(w, MAX_LINE_BYTES)
    ensures var (r, rest) := ReadLine(fills, [], MAX_LINE_BYTES);
      && r == Line(w)
      && Clean(rest) && Bytes(rest) == after
      && Size(rest) < Size(fills)
  {
    assert [] + Bytes(fills) == w + after;
    ReadLineIsFirstLine(fills, [], MAX_LINE_BYTES);
    ReadLineShrinks(fills, [], MAX_LINE_BYTES);
    RestOfWire(w, after, Bytes(ReadLine(fills, [], MAX_LINE_BYTES).1));
  }

  lemma EmptyLeft(s: seq<byte>)
    ensures [] + s == s
  {
  }

  lemma RestOfWire(w: seq<byte>, after: seq<byte>, rest: seq<byte>)
    requires w + after == w + rest
    ensures after == rest
  {
    assert after == (w + after)[|w|..] && rest == (w + rest)[|w|..];
  }

  lemma StuffedStep(m: seq<byte>, tail: seq<byte>)
    requires m != []
    ensures var more := m[|FirstLine(m)|..];
      && Stuffed(m) + tail == StuffedLine(FirstLine(m)) + (Stuffed(more) + tail)
      && |StuffedLines(m)| == |StuffedLine(FirstLine(m))| + |StuffedLines(more)|
  {
    var w, rest := StuffedLine(FirstLine(m)), StuffedLines(m[|FirstLine(m)|..]);
    ConcatAssociates(w, rest, TERMINATOR);
    ConcatAssociates(w, rest + TERMINATOR, tail);
  }

  // The reader's step over one line.
  lemma ReadBodyStep(fills: seq<Fill>, w: seq<byte>, after: seq<byte>, c: Collected)
    requires Clean(fills) && Bytes(fills) == w + after
    requires FirstLine(w + after) == w != [] && Fits(w, MAX_LINE_BYTES)
    ensures var rest := ReadLine(fills, [], MAX_LINE_BYTES).1;
      && Clean(rest) && Bytes(rest) == after
      && ReadBody(fills, c) == match Collect(c, w)
                               case Err(body) => (body, rest)
                               case Ok(more) => ReadBody(rest, more)
  {
    ReadsLine(fills, w, after);
  }

  predicate InStep(c: Collected) {
    c.oversize <==> c.seen > MAX_MESSAGE_BYTES
  }

  lemma {:induction false} ReadsBackFrom(
    fills: seq<Fill>, m: seq<byte>, tail: seq<byte>, c: Collected, read: (Body, seq<Fill>))
    requires Clean(fills) && Bytes(fills) == Stuffed(m) + tail
    requires LinesFit(m) && c.seen + |StuffedLines(m)| <= ABORT_MESSAGE_BYTES
    requires InStep(c)
    requires read == ReadBody(fills, c)
    ensures Clean(read.1) && Bytes(read.1) == tail
    ensures read.0 == Outcome(c.message + Normalised(m), c.seen + |StuffedLines(m)|)
    decreases |m|
  {
    hide ReadLine, ReadBody, StuffedLine, Stuffed, Bytes, FirstLine;
    if m == [] {
      ReadsTerminator(fills, tail, c);
    } else {
      var more := m[|FirstLine(m)|..];
      ReadsPayloadLine(fills, m, tail, c);
      ReadsBackFrom(ReadLine(fills, [], MAX_LINE_BYTES).1, more, tail, Collecting(c, FirstLine(m)), read);
      NormalisedExtends(c.message, m);
    }
  }

  // What one stuffed line leaves collected.
  function Collecting(c: Collected, line: seq<byte>): Collected {
    var size := c.seen + |StuffedLine(line)|;
    if size > MAX_MESSAGE_BYTES then Collected(c.message, size, true)
    else Collected(c.message + Trimmed(line) + CRLF, size, false)
  }

  lemma ReadsPayloadLine(fills: seq<Fill>, m: seq<byte>, tail: seq<byte>, c: Collected)
    requires m != [] && Clean(fills) && Bytes(fills) == Stuffed(m) + tail
    requires LinesFit(m) && c.seen + |StuffedLines(m)| <= ABORT_MESSAGE_BYTES && InStep(c)
    ensures var line, rest := FirstLine(m), ReadLine(fills, [], MAX_LINE_BYTES).1;
      var more := m[|line|..];
      && Clean(rest) && Bytes(rest) == Stuffed(more) + tail
      && ReadBody(fills, c) == ReadBody(rest, Collecting(c, line))
      && LinesFit(more)
      && |StuffedLines(m)| == |StuffedLine(line)| + |StuffedLines(more)|
  {
    hide ReadLine, ReadBody, Collect, StuffedLine, Stuffed, Bytes, FirstLine, Trimmed;
    var line, more := FirstLine(m), m[|FirstLine(m)|..];
    StuffedStep(m, tail);
    TrimmedFirstLineUnbroken(m);
    StuffedLineOnWire(line, Stuffed(more) + tail);
    ReadBodyStep(fills, StuffedLine(line), Stuffed(more) + tail, c);
    CollectStuffed(c, line);
  }

  lemma ReadsTerminator(fills: seq<Fill>, tail: seq<byte>, c: Collected)
    requires Clean(fills) && Bytes(fills) == Stuffed([]) + tail
    requires InStep(c)
    ensures var (body, rest) := ReadBody(fills, c);
      && Clean(rest) && Bytes(rest) == tail
      && body == Outcome(c.message + Normalised([]), c.seen + |StuffedLines([])|)
  {
    hide ReadLine, Bytes;
    assert Stuffed([]) == TERMINATOR;
    TerminatorOnWire(tail);
    ReadBodyStep(fills, TERMINATOR, tail, c);
    assert c.message + [] == c.message;
  }

  lemma CollectStuffed(c: Collected, line: seq<byte>)
    requires Unbroken(Trimmed(line)) && InStep(c)
    requires c.seen + |StuffedLine(line)| <= ABORT_MESSAGE_BYTES
    ensures Collect(c, StuffedLine(line)) == Ok(Collecting(c, line))
  {
    StuffedLineOnWire(line, []);
  }

  lemma NormalisedExtends(message: seq<byte>, m: seq<byte>)
    requires m != []
    ensures message + Normalised(m)
         == message + Trimmed(FirstLine(m)) + CRLF + Normalised(m[|FirstLine(m)|..])
  {
    var t, rest := Trimmed(FirstLine(m)), Normalised(m[|FirstLine(m)|..]);
    ConcatAssociates(message, t, CRLF);
    ConcatAssociates(message, t + CRLF, rest);
  }

  /** Reading a payload back yields the normalised message, or that it was too large past 64 MiB, and
      leaves what followed it. */
  lemma RoundTrip(fills: seq<Fill>, m: seq<byte>, tail: seq<byte>)
    requires Clean(fills) && Bytes(fills) == Stuffed(m) + tail
    requires LinesFit(m) && |StuffedLines(m)| <= 268_435_456
    ensures ReadBody(fills, NOTHING_YET).0 ==
      if |StuffedLines(m)| > 67_108_864 then TooLarge else Message(Normalised(m))
    ensures var rest := ReadBody(fills, NOTHING_YET).1;
      Clean(rest) && Bytes(rest) == tail
  {
    var read := ReadBody(fills, NOTHING_YET);
    ReadsBackFrom(fills, m, tail, NOTHING_YET, read);
    EmptyLeft(Normalised(m));
  }

  lemma {:induction false} AbortsFrom(
    fills: seq<Fill>, m: seq<byte>, tail: seq<byte>, c: Collected, read: (Body, seq<Fill>))
    requires Clean(fills) && Bytes(fills) == Stuffed(m) + tail
    requires LinesFit(m) && c.seen <= ABORT_MESSAGE_BYTES < c.seen + |StuffedLines(m)|
    requires InStep(c) && read == ReadBody(fills, c)
    ensures read.0 == Broken(OtherError)
    decreases |m|
  {
    hide ReadLine, ReadBody, StuffedLine, Stuffed, Bytes, FirstLine, Collect, Trimmed;
    assert StuffedLines([]) == [];
    var line := FirstLine(m);
    var more := m[|line|..];
    StuffedStep(m, tail);
    TrimmedFirstLineUnbroken(m);
    StuffedLineOnWire(line, Stuffed(more) + tail);
    ReadBodyStep(fills, StuffedLine(line), Stuffed(more) + tail, c);
    if c.seen + |StuffedLine(line)| > ABORT_MESSAGE_BYTES {
      CollectAborts(c, line);
    } else {
      CollectStuffed(c, line);
      AbortsFrom(ReadLine(fills, [], MAX_LINE_BYTES).1, more, tail, Collecting(c, line), read);
    }
  }

  lemma CollectAborts(c: Collected, line: seq<byte>)
    requires Unbroken(Trimmed(line)) && c.seen + |StuffedLine(line)| > ABORT_MESSAGE_BYTES
    ensures Collect(c, StuffedLine(line)) == Err(Broken(OtherError))
  {
    StuffedLineOnWire(line, []);
  }

  /** A payload past 256 MiB ends the session instead. */
  lemma TooLongAborts(fills: seq<Fill>, m: seq<byte>, tail: seq<byte>)
    requires Clean(fills) && Bytes(fills) == Stuffed(m) + tail
    requires LinesFit(m) && |StuffedLines(m)| > 268_435_456
    ensures ReadBody(fills, NOTHING_YET).0 == Broken(OtherError)
  {
    AbortsFrom(fills, m, tail, NOTHING_YET, ReadBody(fills, NOTHING_YET));
  }

  // ..... Line by line .....

  /** Normalising keeps every line, cut down to what stands before its end, and ends it with CRLF. */
  lemma {:induction false} NormalisedLines(m: seq<byte>)
    ensures var lines, normal := SplitInclusive(m), SplitInclusive(Normalised(m));
      |normal| == |lines| && forall k :: 0 <= k < |lines| ==> normal[k] == Trimmed(lines[k]) + [13, 10]
    decreases |m|
  {
    hide Trimmed, FirstLine;
    if m != [] {
      var line := FirstLine(m);
      var more := m[|line|..];
      TrimmedFirstLineUnbroken(m);
      TrimmedLast(line);
      CrlfLine(Trimmed(line), Normalised(more));
      SplitStep(Trimmed(line) + CRLF, Normalised(more));
      FirstLineIsPrefix(m);
      SplitStep(line, more);
      NormalisedLines(more);
    }
  }

  lemma FirstLineIsPrefix(m: seq<byte>)
    requires m != []
    ensures FirstLine(m) != [] && FirstLine(m) + m[|FirstLine(m)|..] == m
  {
  }

  /** What stands before a line's end, behind one more dot when it begins with one, and ended with CRLF. */
  predicate IsWireLine(wire: seq<byte>, line: seq<byte>) {
    var t := Trimmed(line);
    wire == (if t != [] && t[0] == 46 then [46] + t else t) + [13, 10]
  }

  lemma StuffedLineIs(line: seq<byte>)
    ensures IsWireLine(StuffedLine(line), line)
  {
    assert [] + Trimmed(line) == Trimmed(line);
  }

  lemma StuffedNothing()
    ensures SplitInclusive(Stuffed([])) == [[46, 13, 10]]
  {
    TerminatorOnWire([]);
    assert Stuffed([]) == TERMINATOR == TERMINATOR + [];
    SplitStep(TERMINATOR, []);
    assert SplitInclusive([]) == [] && TERMINATOR == [46, 13, 10];
  }

  /** On the wire every line of a message is stuffed so, and the last line is a lone dot. */
  lemma {:induction false} StuffedLinesAre(m: seq<byte>)
    ensures var lines, wire := SplitInclusive(m), SplitInclusive(Stuffed(m));
      && |wire| == |lines| + 1 && wire[|lines|] == [46, 13, 10]
      && forall k :: 0 <= k < |lines| ==> IsWireLine(wire[k], lines[k])
    decreases |m|
  {
    hide Trimmed, FirstLine, IsWireLine, StuffedLine, Stuffed;
    if m == [] {
      StuffedNothing();
    } else {
      var line := FirstLine(m);
      var more := m[|line|..];
      TrimmedFirstLineUnbroken(m);
      StuffedLineOnWire(line, Stuffed(more));
      StuffedStep(m, []);
      assert Stuffed(m) + [] == Stuffed(m) && Stuffed(more) + [] == Stuffed(more);
      SplitStep(StuffedLine(line), Stuffed(more));
      FirstLineIsPrefix(m);
      SplitStep(line, more);
      StuffedLinesAre(more);
      StuffedLineIs(line);
    }
  }

  lemma SplitStep(w: seq<byte>, after: seq<byte>)
    requires FirstLine(w + after) == w != []
    ensures SplitInclusive(w + after) == [w] + SplitInclusive(after)
  {
    assert (w + after)[|w|..] == after;
  }

  /** A lone dot is on the wire at the end of the payload and nowhere else. */
  lemma {:induction false} LoneDotOnlyAtEnd(m: seq<byte>)
    ensures var wire := SplitInclusive(Stuffed(m));
      && wire != []
      && forall i :: 0 <= i < |wire| ==> (Trimmed(wire[i]) == [DOT] <==> i == |wire| - 1)
    decreases |m|
  {
    if m == [] {
      TerminatorOnWire([]);
      assert Stuffed(m) == TERMINATOR == TERMINATOR + [];
      assert SplitInclusive(TERMINATOR) == [TERMINATOR];
    } else {
      var line, more := FirstLine(m), m[|FirstLine(m)|..];
      TrimmedFirstLineUnbroken(m);
      StuffedLineOnWire(line, Stuffed(more));
      StuffedStep(m, []);
      assert Stuffed(m) + [] == Stuffed(m) && Stuffed(more) + [] == Stuffed(more);
      SplitStep(StuffedLine(line), Stuffed(more));
      LoneDotOnlyAtEnd(more);
    }
  }

  // ..... Normalisation .....

  // A trimmed line and its CRLF come off the front of a message as its first line.
  lemma CrlfLine(line: seq<byte>, more: seq<byte>)
    requires Unbroken(line) && Trimmed(line) == line
    ensures var w := line + CRLF;
      FirstLine(w + more) == w && Trimmed(w) == line && (w + more)[|w|..] == more
  {
    var w := line + CRLF;
    assert w + more == (line + [CR]) + ([LF] + more);
    assert ([LF] + more)[0] == LF;
    FirstLineOfSplit(line + [CR], [LF] + more);
    assert (line + [CR]) + [LF] == w;
    TrimmedLast(line);
    TrimmedUnique(w, |line|);
    assert w[..|line|] == line;
  }

  /** Normal form: normalising changes nothing. */
  predicate IsNormal(m: seq<byte>) {
    Normalised(m) == m
  }

  lemma NormalCons(line: seq<byte>, more: seq<byte>)
    requires Unbroken(line) && Trimmed(line) == line && IsNormal(more)
    ensures IsNormal(line + CRLF + more)
  {
    CrlfLine(line, more);
  }

  lemma {:induction false} NormalisedIsNormal(m: seq<byte>)
    ensures IsNormal(Normalised(m))
    decreases |m|
  {
    if m != [] {
      var t, more := Trimmed(FirstLine(m)), m[|FirstLine(m)|..];
      TrimmedFirstLineUnbroken(m);
      TrimmedLast(FirstLine(m));
      NormalisedIsNormal(more);
      NormalCons(t, Normalised(more));
    }
  }

  lemma NormalTail(m: seq<byte>)
    requires IsNormal(m) && m != []
    ensures var t, more := Trimmed(FirstLine(m)), m[|FirstLine(m)|..];
      && IsNormal(more)
      && m == t + CRLF + more
      && Unbroken(t) && Trimmed(t) == t
  {
    var t, more := Trimmed(FirstLine(m)), m[|FirstLine(m)|..];
    TrimmedFirstLineUnbroken(m);
    TrimmedLast(FirstLine(m));
    CrlfLine(t, Normalised(more));
  }

  lemma {:induction false} NormalAppend(m: seq<byte>, line: seq<byte>)
    requires IsNormal(m) && Unbroken(line) && Trimmed(line) == line
    ensures IsNormal(m + line + CRLF)
    decreases |m|
  {
    if m == [] {
      NormalCons(line, []);
      assert m + line + CRLF == line + CRLF + [];
    } else {
      var t, more := Trimmed(FirstLine(m)), m[|FirstLine(m)|..];
      NormalTail(m);
      NormalAppend(more, line);
      NormalCons(t, more + line + CRLF);
      ConcatAssociates(t + CRLF, more, line);
      ConcatAssociates(t + CRLF, more + line, CRLF);
    }
  }

  /** Whatever the reader returns, normalising it again changes nothing. */
  lemma {:induction false} ReadBodyIsNormal(fills: seq<Fill>, c: Collected, body: Body)
    requires IsNormal(c.message) && body == ReadBody(fills, c).0
    ensures body.Message? ==> IsNormal(body.bytes)
    decreases Size(fills)
  {
    hide ReadLine, Collect, IsNormal;
    var (r, rest) := ReadLine(fills, [], MAX_LINE_BYTES);
    if r.Line? && r.bytes != [] {
      CollectKeepsNormal(fills, c, r.bytes);
      if Collect(c, r.bytes).Ok? {
        ReadLineShrinks(fills, [], MAX_LINE_BYTES);
        ReadBodyIsNormal(rest, Collect(c, r.bytes).value, body);
      }
    }
  }

  lemma CollectKeepsNormal(fills: seq<Fill>, c: Collected, line: seq<byte>)
    requires IsNormal(c.message) && line != [] && ReadLine(fills, [], MAX_LINE_BYTES).0 == Line(line)
    ensures match Collect(c, line)
      case Ok(more) => IsNormal(more.message)
      case Err(body) => body.Message? ==> IsNormal(body.bytes)
  {
    hide ReadLine, IsNormal;
    ReadLineUnbroken(fills, [], MAX_LINE_BYTES);
    TrimmedUnbroken(line);
    UnstuffedTrimmed(Trimmed(line));
    NormalAppend(c.message, Unstuffed(Trimmed(line)));
  }

  lemma UnstuffedTrimmed(t: seq<byte>)
    requires Unbroken(t) && Trimmed(t) == t
    ensures Unbroken(Unstuffed(t)) && Trimmed(Unstuffed(t)) == Unstuffed(t)
  {
    TrimmedLast(t);
    TrimmedUnique(Unstuffed(t), |Unstuffed(t)|);
  }

  lemma TrimmedUnbroken(line: seq<byte>)
    requires line != [] && Unbroken(line[..|line| - 1])
    ensures Unbroken(Trimmed(line)) && Trimmed(Trimmed(line)) == Trimmed(line)
  {
    TrimmedLast(line);
    assert forall k :: 0 <= k < |line| - 1 ==> line[k] == line[..|line| - 1][k];
  }

  // A line feed ends a line, so it can only be its last byte.
  lemma {:induction false} ReadLineUnbroken(fills: seq<Fill>, out: seq<byte>, cap: nat)
    requires Unbroken(out)
    ensures var r := ReadLine(fills, out, cap).0;
      r.Line? && r.bytes != [] ==> Unbroken(r.bytes[..|r.bytes| - 1])
    decreases |fills|
  {
    if fills != [] && !fills[0].Fault? {
      if fills[0].Interrupted? {
        ReadLineUnbroken(fills[1..], out, cap);
      } else {
        var b := fills[0].bytes;
        var i := LineFeedAt(b);
        LineFeedFirst(b, 0);
        if i < |b| {
          assert (out + b[..i + 1])[..|out| + i] == out + b[..i];
        } else if |out + b| <= cap {
          ReadLineUnbroken(fills[1..], out + b, cap);
        }
      }
    }
  }
}
