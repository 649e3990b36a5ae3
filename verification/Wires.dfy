/** A wire: what is still to be read, what was written, and a log that accounts for both. */
module Wires {
  import opened Wrappers
  import opened Lines
  import opened Messages

  const HYPHEN: byte := 45
  const PLUS: byte := 43

  /** A reply's code, and all of its bytes. */
  datatype Reply = Reply(code: nat, raw: seq<byte>)

  datatype Event =
    | Sent(line: seq<byte>)
    | SentRaw(bytes: seq<byte>)
    | SentMessage(message: seq<byte>)
    | Heard(result: ReadResult)
    | HeardReply(reply: Result<Reply, IoError>)
    | HeardMessage(body: Body)

  predicate IsDigit(b: byte) { 48 <= b <= 57 }

  /** The first three columns as an unsigned decimal, and 0 when they are not one. */
  function Code(trimmed: seq<byte>): nat {
    if |trimmed| < 3 || !IsDigit(trimmed[1]) || !IsDigit(trimmed[2]) then 0
    else
      var high, middle, low := trimmed[0] as int - 48, trimmed[1] as int - 48, trimmed[2] as int - 48;
      if IsDigit(trimmed[0]) then 100 * high + 10 * middle + low
      else if trimmed[0] == PLUS then 10 * middle + low
      else 0
  }

  /** The line is not the last of its reply. */
  predicate Continues(trimmed: seq<byte>) {
    |trimmed| >= 4 && trimmed[3] == HYPHEN
  }

  /** The specification of the reply reader, with `raw` collected so far. */
  function ReadReply(fills: seq<Fill>, raw: seq<byte>): (Result<Reply, IoError>, seq<Fill>)
    decreases Size(fills)
  {
    var (r, rest) := ReadLine(fills, [], MAX_LINE_BYTES);
    if r.Failed? then (Err(r.error), rest)
    else if r.bytes == [] then (Err(Disconnected), rest)
    else
      ReadLineShrinks(fills, [], MAX_LINE_BYTES);
      var trimmed := Trimmed(r.bytes);
      if Continues(trimmed) then ReadReply(rest, raw + r.bytes)
      else (Ok(Reply(Code(trimmed), raw + r.bytes)), rest)
  }

  /** The code is the number that three digits spell, a plus sign in front of two more allowed. */
  lemma CodeIs(trimmed: seq<byte>, a: nat, b: nat, c: nat)
    requires a < 10 && b < 10 && c < 10
    ensures [48 + a, 48 + b, 48 + c] <= trimmed ==> Code(trimmed) == 100 * a + 10 * b + c
    ensures [43, 48 + b, 48 + c] <= trimmed ==> Code(trimmed) == 10 * b + c
    ensures Code(trimmed) != 0 ==>
      && |trimmed| >= 3 && 48 <= trimmed[1] <= 57 && 48 <= trimmed[2] <= 57
      && (48 <= trimmed[0] <= 57 || trimmed[0] == 43)
  {
  }

  function Joined(lines: seq<seq<byte>>): seq<byte> {
    if lines == [] then [] else lines[0] + Joined(lines[1..])
  }

  /** A whole line, short enough for every way of buffering it. */
  predicate IsWholeLine(line: seq<byte>) {
    line != [] && line[|line| - 1] == LF && Unbroken(line[..|line| - 1]) && |line| <= 65536
  }

  predicate MarksContinuation(line: seq<byte>) {
    |Trimmed(line)| >= 4 && Trimmed(line)[3] == 45
  }

  lemma WholeLineRead(fills: seq<Fill>, line: seq<byte>, after: seq<byte>)
    requires Clean(fills) && IsWholeLine(line) && Bytes(fills) == line + after
    ensures var (r, rest) := ReadLine(fills, [], MAX_LINE_BYTES);
      && r == Line(line) && Clean(rest) && Bytes(rest) == after && Size(rest) < Size(fills)
  {
    var head := line[..|line| - 1];
    assert line == head + [LF];
    assert line + after == head + ([LF] + after);
    FirstLineOfSplit(head, [LF] + after);
    assert ([LF] + after)[..1] == [LF];
    ReadsLine(fills, line, after);
  }

  /** A reply is every line up to and including the first that does not mark a continuation, its
      code the last one's, whatever the buffering; what is behind it is left. */
  lemma {:induction false} ReplyIsRead(fills: seq<Fill>, lines: seq<seq<byte>>, after: seq<byte>, raw: seq<byte>)
    requires lines != [] && Clean(fills) && Bytes(fills) == Joined(lines) + after
    requires forall i :: 0 <= i < |lines| ==>
      IsWholeLine(lines[i]) && (MarksContinuation(lines[i]) <==> i < |lines| - 1)
    ensures var (r, rest) := ReadReply(fills, raw);
      && r == Ok(Reply(Code(Trimmed(lines[|lines| - 1])), raw + Joined(lines)))
      && Clean(rest) && Bytes(rest) == after
    decreases |lines|
  {
    hide ReadLine, Code, Bytes, Size, Trimmed;
    var line, more := lines[0], lines[1..];
    ConcatAssociates(line, Joined(more), after);
    WholeLineRead(fills, line, Joined(more) + after);
    ConcatAssociates(raw, line, Joined(more));
    if more == [] {
      assert Joined(more) + after == after && Joined(lines) == line;
    } else {
      ReplyIsRead(ReadLine(fills, [], MAX_LINE_BYTES).1, more, after, raw + line);
    }
  }

  // ..... What a log means .....

  function RenderedEvent(e: Event): seq<byte> {
    match e
    case Sent(line) => line + CRLF
    case SentRaw(bytes) => bytes
    case SentMessage(message) => Stuffed(message)
    case _ => []
  }

  /** A line that is sent takes CRLF behind it on the wire, and a reader at the other end has it back. */
  lemma SentLineReadsBack(fills: seq<Fill>, line: seq<byte>, after: seq<byte>)
    requires Clean(fills) && Bytes(fills) == RenderedEvent(Sent(line)) + after
    requires Unbroken(line) && Trimmed(line) == line && |line| <= 65534
    ensures RenderedEvent(Sent(line)) == line + [13, 10]
    ensures var (r, rest) := ReadLine(fills, [], MAX_LINE_BYTES);
      r.Line? && Trimmed(r.bytes) == line && Clean(rest) && Bytes(rest) == after
  {
    var w := line + CRLF;
    CrlfLine(line, []);
    assert w[..|w| - 1] == line + [CR];
    WholeLineRead(fills, w, after);
  }

  /** Every byte the log's writes asked for. */
  function Rendered(log: seq<Event>): seq<byte> {
    if log == [] then [] else Rendered(log[..|log| - 1]) + RenderedEvent(log[|log| - 1])
  }

  function Taken(bytes: seq<byte>, capacity: nat): seq<byte> {
    bytes[..if |bytes| <= capacity then |bytes| else capacity]
  }

  /** What is left to read after the reads in the log. */
  function Remaining(initial: seq<Fill>, log: seq<Event>): seq<Fill> {
    if log == [] then initial
    else
      var before, e := Remaining(initial, log[..|log| - 1]), log[|log| - 1];
      if IsWrite(e) then before else Returned(before, e).1
  }

  /** Every read in the log returned what the stream held at that point. */
  predicate Faithful(initial: seq<Fill>, log: seq<Event>) {
    log != [] ==>
      var before, e := Remaining(initial, log[..|log| - 1]), log[|log| - 1];
      && Faithful(initial, log[..|log| - 1])
      && (!IsWrite(e) ==> Returned(before, e).0)
  }

  predicate IsWrite(e: Event) {
    e.Sent? || e.SentRaw? || e.SentMessage?
  }

  lemma WriteStep(initial: seq<Fill>, log: seq<Event>, e: Event)
    requires IsWrite(e)
    ensures Remaining(initial, log + [e]) == Remaining(initial, log)
    ensures Faithful(initial, log + [e]) <==> Faithful(initial, log)
    ensures Rendered(log + [e]) == Rendered(log) + RenderedEvent(e)
  {
    assert (log + [e])[..|log|] == log;
  }

  lemma ReadStep(initial: seq<Fill>, log: seq<Event>, e: Event)
    requires !IsWrite(e)
    ensures Rendered(log + [e]) == Rendered(log)
    ensures var before := Remaining(initial, log);
      && (Faithful(initial, log + [e]) <==> Faithful(initial, log) && Returned(before, e).0)
      && Remaining(initial, log + [e]) == Returned(before, e).1
  {
    assert (log + [e])[..|log|] == log;
    assert Rendered(log) + [] == Rendered(log);
  }

  // Whether a read event is what the stream gives there, and what is left afterwards.
  function Returned(before: seq<Fill>, e: Event): (bool, seq<Fill>)
    requires !IsWrite(e)
  {
    match e
    case Heard(r) => (r == ReadLine(before, [], MAX_LINE_BYTES).0, ReadLine(before, [], MAX_LINE_BYTES).1)
    case HeardReply(r) => (r == ReadReply(before, []).0, ReadReply(before, []).1)
    case HeardMessage(b) => (b == ReadBody(before, NOTHING_YET).0, ReadBody(before, NOTHING_YET).1)
  }

  lemma {:induction false} RenderedGrows(log: seq<Event>, more: seq<Event>)
    ensures |Rendered(log)| <= |Rendered(log + more)|
    decreases |more|
  {
    hide Rendered;
    if more == [] {
      assert log + more == log;
    } else {
      var n := |more| - 1;
      assert (log + more)[..|log| + n] == log + more[..n];
      LastRendered(log + more);
      RenderedGrows(log, more[..n]);
    }
  }

  lemma LastRendered(log: seq<Event>)
    requires log != []
    ensures |Rendered(log[..|log| - 1])| <= |Rendered(log)|
  {
    hide RenderedEvent;
  }

  lemma TakenTwice(a: seq<byte>, b: seq<byte>, capacity: nat)
    ensures Taken(a + b, capacity)
         == Taken(a, capacity) + Taken(b, capacity - |Taken(a, capacity)|)
  {
    if |a| < capacity {
      assert Taken(a, capacity) == a;
    } else {
      assert Taken(a + b, capacity) == Taken(a, capacity) == Taken(a, capacity) + [];
    }
  }

  /** Dot-stuff a message, line by line. */
  method Stuff(message: seq<byte>) returns (wire: seq<byte>)
    ensures wire == StuffedLines(message)
  {
    wire := [];
    var rest := message;
    while rest != []
      invariant wire + StuffedLines(rest) == StuffedLines(message)
      decreases |rest|
    {
      var line := FirstLine(rest);
      var trimmed := TrimEol(line);
      ConcatAssociates(wire, StuffedLine(line), StuffedLines(rest[|line|..]));
      ghost var was := wire;
      if trimmed != [] && trimmed[0] == DOT {
        wire := wire + [DOT];
      }
      wire := wire + trimmed;
      wire := wire + CRLF;
      assert wire == was + StuffedLine(line);
      rest := rest[|line|..];
    }
  }

  class Wire {
    var input: seq<Fill>
    var output: seq<byte>
    /** How many bytes the peer takes before its end is gone, and the error a write meets then. */
    const capacity: nat
    const writeError: IoError
    ghost const initial: seq<Fill>
    ghost var log: seq<Event>

    constructor (input: seq<Fill>, capacity: nat, writeError: IoError)
      ensures Valid() && log == [] && initial == input && this.capacity == capacity
    {
      this.input, this.output, this.log := input, [], [];
      this.capacity, this.writeError, this.initial := capacity, writeError, input;
    }

    /** The log is what happened: every read is faithful to the stream, every write was delivered
        until the peer's end was gone. */
    ghost predicate Valid() reads this {
      && Faithful(initial, log)
      && input == Remaining(initial, log)
      && output == Taken(Rendered(log), capacity)
    }

    /** Nothing asked for so far has been cut short. */
    ghost predicate Delivered() reads this {
      |Rendered(log)| <= capacity
    }

    // Every write of the proxy goes through here.
    method Write(bytes: seq<byte>, ghost e: Event) returns (ok: bool)
      requires Valid() && IsWrite(e) && RenderedEvent(e) == bytes
      modifies this`output, this`log
      ensures Valid() && log == old(log) + [e]
      ensures (bytes != [] ==> ok == Delivered()) && (Delivered() ==> ok)
    {
      var room := capacity - |output|;
      ok := |bytes| <= room;
      output := output + if ok then bytes else bytes[..room];
      TakenTwice(Rendered(log), bytes, capacity);
      WriteStep(initial, log, e);
      log := log + [e];
    }

    method SendLine(line: seq<byte>) returns (ok: bool)
      requires Valid()
      modifies this`output, this`log
      ensures Valid() && log == old(log) + [Sent(line)] && ok == Delivered()
    {
      ok := Write(line + CRLF, Sent(line));
    }

    method SendBytes(bytes: seq<byte>) returns (ok: bool)
      requires Valid()
      modifies this`output, this`log
      ensures Valid() && log == old(log) + [SentRaw(bytes)]
      ensures (bytes != [] ==> ok == Delivered()) && (Delivered() ==> ok)
    {
      ok := Write(bytes, SentRaw(bytes));
    }

    /** Puts the stuffed form of a message on the wire, as far as writes succeed. */
    method SendPayload(message: seq<byte>) returns (ok: bool)
      requires Valid()
      modifies this`output, this`log
      ensures Valid() && log == old(log) + [SentMessage(message)] && ok == Delivered()
    {
      var wire := Stuff(message);
      ok := Write(wire + TERMINATOR, SentMessage(message));
    }

    // The one loop every read goes through.
    method ReadLineCapped(cap: nat) returns (r: ReadResult)
      modifies this`input
      ensures (r, input) == ReadLine(old(input), [], cap)
    {
      hide LineFeedAt, LineFeedFrom, Bytes;
      var out: seq<byte> := [];
      ghost var expected := ReadLine(input, [], cap);
      while input != []
        invariant expected == ReadLine(input, out, cap)
        decreases |input|
      {
        match input[0]
        case Interrupted =>
          input := input[1..];
        case Fault(e) =>
          input := input[1..];
          return Failed(e);
        case Data(available) =>
          var i := LineFeedAt(available);
          if i < |available| {
            out := out + available[..i + 1];
            input := Consumed(input, i + 1);
            return ReadResult.Line(out);
          }
          out := out + available;
          input := input[1..];
          if |out| > cap {
            return Failed(OtherError);
          }
      }
      return ReadResult.Line(out);
    }

    /** Read one line; an empty one is the end of the stream. */
    method HearLine() returns (r: ReadResult)
      requires Valid()
      modifies this`input, this`log
      ensures Valid() && log == old(log) + [Heard(r)]
      ensures r.Line? && r.bytes != [] ==> Size(input) < Size(old(input))
    {
      ReadLineShrinks(input, [], MAX_LINE_BYTES);
      r := ReadLineCapped(MAX_LINE_BYTES);
      ReadStep(initial, log, Heard(r));
      log := log + [Heard(r)];
    }

    /** Takes lines off the wire up to the one that ends the reply. */
    method HearReply() returns (r: Result<Reply, IoError>)
      requires Valid()
      modifies this`input, this`log
      ensures Valid() && log == old(log) + [HeardReply(r)]
    {
      var raw: seq<byte> := [];
      ghost var start := input;
      while true
        invariant log == old(log) && output == old(output)
        invariant ReadReply(input, raw) == ReadReply(start, [])
        decreases Size(input)
      {
        ReadLineShrinks(input, [], MAX_LINE_BYTES);
        var line := ReadLineCapped(MAX_LINE_BYTES);
        if line.Failed? {
          r := Err(line.error);
          break;
        }
        if line.bytes == [] {
          r := Err(Disconnected);
          break;
        }
        raw := raw + line.bytes;
        var trimmed := TrimEol(line.bytes);
        if !Continues(trimmed) {
          r := Ok(Reply(Code(trimmed), raw));
          break;
        }
      }
      ReadStep(initial, log, HeardReply(r));
      log := log + [HeardReply(r)];
    }

    /** Takes a message off the wire, and leaves what is behind its terminator. */
    method ReadMessage() returns (body: Body)
      modifies this`input
      ensures (body, input) == ReadBody(old(input), NOTHING_YET)
      ensures Size(input) <= Size(old(input))
    {
      hide Size;
      var message: seq<byte>, seen: nat, oversize := [], 0, false;
      ghost var expected := ReadBody(input, NOTHING_YET);
      while true
        invariant expected == ReadBody(input, Collected(message, seen, oversize))
        invariant Size(input) <= Size(old(input))
        decreases Size(input)
      {
        ReadLineShrinks(input, [], MAX_LINE_BYTES);
        var line := ReadLineCapped(MAX_LINE_BYTES);
        if line.Failed? {
          return Broken(line.error);
        }
        if line.bytes == [] {
          return Eof;
        }
        var trimmed := TrimEol(line.bytes);
        if trimmed == [DOT] {
          return if oversize then TooLarge else Message(message);
        }
        seen := seen + |line.bytes|;
        if seen > ABORT_MESSAGE_BYTES {
          return Broken(OtherError);
        }
        if seen > MAX_MESSAGE_BYTES {
          // Nothing more is kept, but the lines are read to the last.
          oversize := true;
        } else {
          var payload := if trimmed != [] && trimmed[0] == DOT then trimmed[1..] else trimmed;
          message := message + payload + CRLF;
        }
      }
    }

    method HearMessage() returns (body: Body)
      requires Valid()
      modifies this`input, this`log
      ensures Valid() && log == old(log) + [HeardMessage(body)]
      ensures Size(input) <= Size(old(input))
    {
      body := ReadMessage();
      ReadStep(initial, log, HeardMessage(body));
      log := log + [HeardMessage(body)];
    }
  }
}
