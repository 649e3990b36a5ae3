/** The line reader of the SMTP proxy, and its independence from how the stream is buffered. */
module Lines {
  type byte = x: int | 0 <= x < 256

  const CR: byte := 13
  const LF: byte := 10

  /** The two error classes the proxy tells apart: the peer went away, or anything else. */
  datatype IoError = Disconnected | OtherError

  type Chunk = b: seq<byte> | b != [] witness [0]

  /** One answer of the buffered reader to a refill. The end of the list is the end of the stream. */
  datatype Fill = Data(bytes: Chunk) | Interrupted | Fault(error: IoError)

  datatype ReadResult = Line(bytes: seq<byte>) | Failed(error: IoError)

  function LineFeedFrom(s: seq<byte>, i: nat): (j: nat)
    requires i <= |s|
    ensures i <= j <= |s|
    decreases |s| - i
  {
    if i == |s| || s[i] == LF then i else LineFeedFrom(s, i + 1)
  }

  /** Where the first line feed is; the length when there is none. */
  function LineFeedAt(s: seq<byte>): (i: nat)
    ensures i <= |s|
    ensures i < |s| ==> s[i] == LF
  {
    LineFeedStops(s, 0);
    LineFeedFrom(s, 0)
  }

  lemma {:induction false} LineFeedStops(s: seq<byte>, i: nat)
    requires i <= |s|
    ensures var j := LineFeedFrom(s, i); j < |s| ==> s[j] == LF
    decreases |s| - i
  {
    if i < |s| && s[i] != LF { LineFeedStops(s, i + 1); }
  }

  function LineEnd(s: seq<byte>): (n: nat)
    ensures n <= |s|
    ensures s != [] ==> n > 0
  {
    if LineFeedAt(s) < |s| then LineFeedAt(s) + 1 else |s|
  }

  /** The bytes up to and including the first line feed, or all of them when there is none. */
  function FirstLine(s: seq<byte>): (line: seq<byte>)
    ensures |line| == LineEnd(s)
  {
    s[..LineEnd(s)]
  }

  lemma {:induction false} LineFeedSkips(s: seq<byte>, i: nat, j: nat)
    requires i <= j <= |s|
    requires forall k :: i <= k < j ==> s[k] != LF
    ensures LineFeedFrom(s, i) == LineFeedFrom(s, j)
    decreases j - i
  {
    if i < j { LineFeedSkips(s, i + 1, j); }
  }

  lemma {:induction false} LineFeedShift(a: seq<byte>, b: seq<byte>, i: nat)
    requires i <= |b|
    ensures LineFeedFrom(a + b, |a| + i) == |a| + LineFeedFrom(b, i)
    decreases |b| - i
  {
    if i < |b| { LineFeedShift(a, b, i + 1); }
  }

  lemma {:induction false} LineFeedFirst(s: seq<byte>, i: nat)
    requires i <= |s|
    ensures forall k :: i <= k < LineFeedFrom(s, i) ==> s[k] != LF
    decreases |s| - i
  {
    if i < |s| && s[i] != LF { LineFeedFirst(s, i + 1); }
  }

  function SplitInclusive(s: seq<byte>): (lines: seq<seq<byte>>)
    ensures forall l :: l in lines ==> l != []
  {
    if s == [] then [] else [FirstLine(s)] + SplitInclusive(s[|FirstLine(s)|..])
  }

  /** Everything the stream holds, whatever the faults between. */
  function Bytes(fills: seq<Fill>): seq<byte> {
    if fills == [] then []
    else if fills[0].Data? then fills[0].bytes + Bytes(fills[1..])
    else Bytes(fills[1..])
  }

  predicate Clean(fills: seq<Fill>) {
    forall f :: f in fills ==> !f.Fault?
  }

  /** The longest buffer the reader was handed. */
  function LargestChunk(fills: seq<Fill>): nat {
    if fills == [] then 0
    else
      var rest := LargestChunk(fills[1..]);
      if fills[0].Data? && |fills[0].bytes| > rest then |fills[0].bytes| else rest
  }

  /** What is left of the stream after `n` bytes of its first buffer are consumed. */
  function Consumed(fills: seq<Fill>, n: nat): (rest: seq<Fill>)
    requires fills != [] && fills[0].Data? && 0 < n <= |fills[0].bytes|
    ensures Bytes(fills) == fills[0].bytes[..n] + Bytes(rest)
    ensures Clean(fills) ==> Clean(rest)
  {
    if n == |fills[0].bytes| then fills[1..]
    else
      var rest := [Data(fills[0].bytes[n..])] + fills[1..];
      assert rest[1..] == fills[1..];
      rest
  }

  /** The specification of the capped reader, holding `out` already. */
  function ReadLine(fills: seq<Fill>, out: seq<byte>, cap: nat): (ReadResult, seq<Fill>) {
    if fills == [] then (Line(out), [])
    else match fills[0]
      case Interrupted => ReadLine(fills[1..], out, cap)
      case Fault(e) => (ReadResult.Failed(e), fills[1..])
      case Data(b) =>
        var i := LineFeedAt(b);
        if i < |b| then (Line(out + b[..i + 1]), Consumed(fills, i + 1))
        else if |out + b| > cap then (ReadResult.Failed(OtherError), fills[1..])
        else ReadLine(fills[1..], out + b, cap)
  }

  /** A line every chunking delivers: the cap is looked at only before the line feed arrives. */
  predicate Fits(line: seq<byte>, cap: nat) {
    |line| <= cap || (|line| == cap + 1 && line[cap] == LF)
  }

  lemma ConcatAssociates(a: seq<byte>, b: seq<byte>, c: seq<byte>)
    ensures a + (b + c) == (a + b) + c
  {
  }

  predicate Unbroken(s: seq<byte>) {
    forall k :: 0 <= k < |s| ==> s[k] != LF
  }

  // A partial line keeps the search for the line feed going.
  lemma LineFeedOfSplit(a: seq<byte>, b: seq<byte>)
    requires Unbroken(a)
    ensures LineFeedAt(a + b) == |a| + LineFeedAt(b)
  {
    LineFeedSkips(a + b, 0, |a|);
    LineFeedShift(a, b, 0);
  }

  lemma FirstLineOfSplit(a: seq<byte>, b: seq<byte>)
    requires Unbroken(a)
    ensures FirstLine(a + b) == a + FirstLine(b)
  {
    LineFeedOfSplit(a, b);
    TakeOfSplit(a, b, LineEnd(b));
  }

  lemma TakeOfSplit(a: seq<byte>, b: seq<byte>, n: nat)
    requires n <= |b|
    ensures (a + b)[..|a| + n] == a + b[..n]
  {
  }

  // The line feed of a stream is the one in its head, when the head has one.
  lemma FirstLineAt(b: seq<byte>, after: seq<byte>)
    requires LineFeedAt(b) < |b|
    ensures FirstLine(b + after) == b[..LineFeedAt(b) + 1]
  {
    var i := LineFeedAt(b);
    LineFeedFirst(b, 0);
    LineFeedSkips(b + after, 0, i);
    assert (b + after)[i] == LF;
  }

  // The reader stops inside the buffer that holds the line feed.
  lemma StopsInBuffer(fills: seq<Fill>, out: seq<byte>)
    requires fills != [] && fills[0].Data? && LineFeedAt(fills[0].bytes) < |fills[0].bytes| && Unbroken(out)
    ensures var i := LineFeedAt(fills[0].bytes) + 1;
      && FirstLine(out + Bytes(fills)) == out + fills[0].bytes[..i]
      && out + Bytes(fills) == (out + fills[0].bytes[..i]) + Bytes(Consumed(fills, i))
  {
    var b, after := fills[0].bytes, Bytes(fills[1..]);
    var i := LineFeedAt(b) + 1;
    assert FirstLine(out + Bytes(fills)) == out + b[..i] by {
      FirstLineOfSplit(out, b + after);
      FirstLineAt(b, after);
    }
    ConcatAssociates(out, b[..i], Bytes(Consumed(fills, i)));
  }

  lemma {:induction false} ReadLineIsFirstLine(fills: seq<Fill>, out: seq<byte>, cap: nat)
    requires Clean(fills) && Unbroken(out)
    requires Fits(FirstLine(out + Bytes(fills)), cap)
    ensures var line := FirstLine(out + Bytes(fills));
      var (r, rest) := ReadLine(fills, out, cap);
      && r == Line(line)
      && Clean(rest)
      && out + Bytes(fills) == line + Bytes(rest)
    decreases |fills|
  {
    if fills == [] {
      FirstLineOfSplit(out, []);
      assert out + [] == out;
    } else if fills[0].Interrupted? {
      ReadLineIsFirstLine(fills[1..], out, cap);
    } else {
      assert fills[0] in fills;
      var b := fills[0].bytes;
      if LineFeedAt(b) < |b| {
        StopsInBuffer(fills, out);
      } else {
        assert out + Bytes(fills) == (out + b) + Bytes(fills[1..]);
        LineFeedFirst(b, 0);
        FirstLineOfSplit(out + b, Bytes(fills[1..]));
        ReadLineIsFirstLine(fills[1..], out + b, cap);
      }
    }
  }

  /** Exactly which first lines survive every way of buffering a stream. */
  lemma EveryChunkingDeliversIff(s: seq<byte>, cap: nat)
    ensures (forall fills {:trigger Bytes(fills)} :: Clean(fills) && Bytes(fills) == s
              ==> ReadLine(fills, [], cap).0 == Line(FirstLine(s)))
       <==> Fits(FirstLine(s), cap)
  {
    var line := FirstLine(s);
    if Fits(line, cap) {
      forall fills | Clean(fills) && Bytes(fills) == s
        ensures ReadLine(fills, [], cap).0 == Line(line)
      {
        assert [] + Bytes(fills) == s;
        ReadLineIsFirstLine(fills, [], cap);
      }
    } else {
      UnluckyChunking(s, cap);
    }
  }

  lemma FirstLineUnbroken(s: seq<byte>)
    ensures var line := FirstLine(s);
      && (forall k :: 0 <= k < |line| - 1 ==> line[k] != LF)
      && (|line| < |s| ==> line[|line| - 1] == LF)
  {
    LineFeedFirst(s, 0);
  }

  // A buffer boundary just before the line feed, or at the end, trips the cap.
  lemma UnluckyChunking(s: seq<byte>, cap: nat)
    requires !Fits(FirstLine(s), cap)
    ensures exists fills {:trigger Bytes(fills)} :: Clean(fills) && Bytes(fills) == s
              && ReadLine(fills, [], cap).0 != Line(FirstLine(s))
  {
    var line := FirstLine(s);
    FirstLineUnbroken(s);
    var cut := if line[|line| - 1] == LF then |line| - 1 else |line|;
    assert forall k :: 0 <= k < cut ==> s[k] == line[k];
    var fills := TwoChunks(s[..cut], s[cut..]);
    assert s[..cut] + s[cut..] == s;
    CapTrips(fills, cap);
    assert Bytes(fills) == s;
  }

  lemma CapTrips(fills: seq<Fill>, cap: nat)
    requires fills != [] && fills[0].Data? && Unbroken(fills[0].bytes) && |fills[0].bytes| > cap
    ensures ReadLine(fills, [], cap).0 == ReadResult.Failed(OtherError)
  {
    var b := fills[0].bytes;
    LineFeedSkips(b, 0, |b|);
    assert [] + b == b;
  }

  function TwoChunks(head: Chunk, tail: seq<byte>): (fills: seq<Fill>)
    ensures Clean(fills) && Bytes(fills) == head + tail
    ensures fills != [] && fills[0] == Data(head)
  {
    if tail == [] then
      assert [Data(head)][1..] == [];
      assert head + tail == head == head + [];
      [Data(head)]
    else
      var fills := [Data(head), Data(tail)];
      assert fills[1..] == [Data(tail)] && [Data(tail)][1..] == [];
      assert Bytes([Data(tail)]) == tail + [] == tail;
      fills
  }

  /** Nothing is lost or repeated by a read that returns a line, and the overshoot is one buffer. */
  lemma {:induction false} ReadLineConserves(fills: seq<Fill>, out: seq<byte>, cap: nat)
    requires |out| <= cap
    ensures var (r, rest) := ReadLine(fills, out, cap);
      r.Line? ==>
        && out + Bytes(fills) == r.bytes + Bytes(rest)
        && |r.bytes| <= cap + LargestChunk(fills)
        && out <= r.bytes
    decreases |fills|
  {
    if fills == [] {
      assert out + [] == out;
    } else if fills[0].Data? {
      var b := fills[0].bytes;
      var i := LineFeedAt(b);
      if i < |b| {
        assert out + Bytes(fills) == out + b[..i + 1] + Bytes(Consumed(fills, i + 1));
      } else if |out + b| <= cap {
        ReadLineConserves(fills[1..], out + b, cap);
        assert out + Bytes(fills) == out + b + Bytes(fills[1..]);
      }
    } else if fills[0].Interrupted? {
      ReadLineConserves(fills[1..], out, cap);
    }
  }

  /** A bound on the reads left: every read that returns bytes uses some of it up. */
  function Size(fills: seq<Fill>): nat {
    if fills == [] then 0
    else 1 + (if fills[0].Data? then |fills[0].bytes| else 0) + Size(fills[1..])
  }

  lemma {:induction false} ReadLineShrinks(fills: seq<Fill>, out: seq<byte>, cap: nat)
    ensures var (r, rest) := ReadLine(fills, out, cap);
      && Size(rest) <= Size(fills)
      && (r != Line(out) ==> Size(rest) < Size(fills))
    decreases |fills|
  {
    if fills != [] {
      match fills[0]
      case Fault(e) =>
      case Interrupted => ReadLineShrinks(fills[1..], out, cap);
      case Data(b) =>
        var i := LineFeedAt(b);
        if i < |b| {
          var rest := Consumed(fills, i + 1);
          if i + 1 < |b| { assert rest[1..] == fills[1..]; }
        } else if |out + b| <= cap {
          ReadLineShrinks(fills[1..], out + b, cap);
        }
    }
  }

  /** Reading until the stream ends or a read fails. */
  function ReadAll(fills: seq<Fill>, cap: nat): seq<seq<byte>>
    decreases Size(fills)
  {
    var (r, rest) := ReadLine(fills, [], cap);
    if r.Failed? || r.bytes == [] then []
    else
      ReadLineShrinks(fills, [], cap);
      [r.bytes] + ReadAll(rest, cap)
  }

  /** Successive reads return the newline-delimited pieces, however the stream was buffered. */
  lemma {:induction false} ReadAllSplits(fills: seq<Fill>, cap: nat)
    requires Clean(fills)
    requires forall l :: l in SplitInclusive(Bytes(fills)) ==> Fits(l, cap)
    ensures ReadAll(fills, cap) == SplitInclusive(Bytes(fills))
    decreases Size(fills)
  {
    var s := Bytes(fills);
    assert [] + s == s;
    if s != [] {
      assert SplitInclusive(s)[0] == FirstLine(s);
    }
    ReadLineIsFirstLine(fills, [], cap);
    var (r, rest) := ReadLine(fills, [], cap);
    if s != [] {
      ReadLineShrinks(fills, [], cap);
      assert Bytes(rest) == s[|r.bytes|..];
      assert forall l :: l in SplitInclusive(Bytes(rest)) ==> l in SplitInclusive(s);
      ReadAllSplits(rest, cap);
    }
  }

  // ..... Trimming the end of a line .....

  predicate IsEol(b: byte) { b == CR || b == LF }

  function TrimmedTo(line: seq<byte>, end: nat): (n: nat)
    requires end <= |line|
    ensures n <= end
    ensures n > 0 ==> !IsEol(line[n - 1])
  {
    if end > 0 && IsEol(line[end - 1]) then TrimmedTo(line, end - 1) else end
  }

  /** A line without the run of carriage returns and line feeds that ends it. */
  function Trimmed(line: seq<byte>): (r: seq<byte>)
    ensures |r| <= |line|
  {
    line[..TrimmedTo(line, |line|)]
  }

  lemma {:induction false} TrimmedAway(line: seq<byte>, end: nat)
    requires end <= |line|
    ensures forall i :: TrimmedTo(line, end) <= i < end ==> IsEol(line[i])
  {
    if end > 0 && IsEol(line[end - 1]) { TrimmedAway(line, end - 1); }
  }

  /** Trimming takes away exactly the run of line-end bytes, and no other split of the line does. */
  lemma TrimmedUnique(line: seq<byte>, n: nat)
    requires n <= |line|
    ensures Trimmed(line) == line[..n] <==>
      && (forall i :: n <= i < |line| ==> IsEol(line[i]))
      && (n > 0 ==> !IsEol(line[n - 1]))
  {
    var t := TrimmedTo(line, |line|);
    TrimmedAway(line, |line|);
    assert Trimmed(line) == line[..n] ==> |line[..t]| == |line[..n]|;
  }

  method TrimEol(line: seq<byte>) returns (r: seq<byte>)
    ensures r == Trimmed(line)
  {
    var end := |line|;
    while end > 0 && IsEol(line[end - 1])
      invariant 0 <= end <= |line|
      invariant forall i :: end <= i < |line| ==> IsEol(line[i])
    {
      end := end - 1;
    }
    TrimmedUnique(line, end);
    return line[..end];
  }
}
