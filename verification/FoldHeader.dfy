/** Folding a header field over lines, as section 2.2.3 of RFC 5322 allows. */
module FoldHeader {
  import opened Wrappers
  import L = Lines
  import M = Messages

  /** UTF-8, as bytes. */
  type Text = seq<L.byte>

  const SP: L.byte := 32
  const COLON: L.byte := 58

  const LINE_WIDTH := 76

  predicate IsContinuation(b: L.byte) { 0x80 <= b < 0xC0 }

  /** Cutting here would split a character, which a slice of a string refuses. */
  predicate Splits(value: Text, at: nat) {
    at < |value| && IsContinuation(value[at])
  }

  function Min(a: nat, b: nat): nat { if a < b then a else b }

  /** What is left of the first line after the field's name. */
  function FirstBudget(name: Text): nat {
    var prefix := |name| + 2;
    if prefix > LINE_WIDTH then 0 else LINE_WIDTH - prefix
  }

  /** The continuation lines for what follows a position. */
  function Continued(value: Text, pos: nat): Text
    requires pos <= |value|
    decreases |value| - pos
  {
    if pos == |value| then []
    else
      var end := Min(pos + LINE_WIDTH - 1, |value|);
      [SP] + value[pos..end] + M.CRLF + Continued(value, end)
  }

  predicate CutsCleanly(value: Text, pos: nat)
    requires pos <= |value|
    decreases |value| - pos
  {
    !Splits(value, pos)
    && (pos == |value| || CutsCleanly(value, Min(pos + LINE_WIDTH - 1, |value|)))
  }

  function Prefix(name: Text): Text { name + [COLON, SP] }

  /** The folded field; nothing when a line would end inside a character. */
  function Folded(name: Text, value: Text): Option<Text> {
    var first := Min(FirstBudget(name), |value|);
    if !CutsCleanly(value, first) then None
    else Some(Prefix(name) + value[..first] + M.CRLF + Continued(value, first))
  }

  /** Builds the folded field piece by piece; `None` stands for the panic of a cut inside a character. */
  method FoldHeaderValue(name: Text, value: Text) returns (r: Option<Text>)
    ensures r == Folded(name, value)
  {
    var prefix := Prefix(name);
    var budget := FirstBudget(name);
    var out := prefix;
    if |value| <= budget {
      assert value[..|value|] == value;
      out := out + value;
      out := out + M.CRLF;
      assert out == out + Continued(value, |value|);
      return Some(out);
    }
    if Splits(value, budget) { return None; }
    out := out + value[..budget];
    out := out + M.CRLF;
    var pos := budget;
    while pos < |value|
      invariant budget <= pos <= |value|
      invariant CutsCleanly(value, pos) <==> CutsCleanly(value, budget)
      invariant out + Continued(value, pos) == prefix + value[..budget] + M.CRLF + Continued(value, budget)
      invariant !Splits(value, pos)
    {
      var end := Min(pos + LINE_WIDTH - 1, |value|);
      if Splits(value, end) { return None; }
      ghost var line := [SP] + value[pos..end] + M.CRLF;
      assert out + (line + Continued(value, end)) == (out + line) + Continued(value, end);
      assert ((out + [SP]) + value[pos..end]) + M.CRLF == out + line;
      out := out + [SP];
      out := out + value[pos..end];
      out := out + M.CRLF;
      pos := end;
    }
    assert out + Continued(value, |value|) == out;
    r := Some(out);
  }

  // ..... What a reader sees .....

  /** The lines of a text, without their breaks; the last is what follows the last break. */
  function Lines(t: Text): (r: seq<Text>)
    ensures r != []
  {
    if t == [] then [[]]
    else if M.CRLF <= t then [[]] + Lines(t[2..])
    else
      var rest := Lines(t[1..]);
      [[t[0]] + rest[0]] + rest[1..]
  }

  /** Undo the folding: a break and its space go, and so does the break that ends the field. */
  function Unfolded(t: Text): Text {
    if t == [] || t == M.CRLF then []
    else if M.CRLF + [SP] <= t then Unfolded(t[3..])
    else [t[0]] + Unfolded(t[1..])
  }

  predicate OneLine(t: Text) { forall i :: 0 <= i < |t| ==> t[i] != L.CR }

  lemma {:induction false} LineFirst(line: Text, rest: Text)
    requires OneLine(line)
    ensures Lines(line + M.CRLF + rest) == [line] + Lines(rest)
    decreases |line|
  {
    var t := line + M.CRLF + rest;
    if line == [] {
      assert M.CRLF <= t && t[2..] == rest;
    } else {
      assert line == [line[0]] + line[1..];
      LineFirst(line[1..], rest);
      assert t[1..] == line[1..] + M.CRLF + rest;
      assert t[0] == line[0];
    }
  }

  /** The lines of the continuation: each one space and up to seventy-five bytes, all but the last
      of them full. */
  function ContinuationLines(value: Text, pos: nat): seq<Text>
    requires pos <= |value|
    decreases |value| - pos
  {
    if pos == |value| then []
    else
      var end := Min(pos + LINE_WIDTH - 1, |value|);
      [[SP] + value[pos..end]] + ContinuationLines(value, end)
  }

  lemma {:induction false} ContinuedLines(value: Text, pos: nat)
    requires pos <= |value| && OneLine(value)
    ensures Lines(Continued(value, pos)) == ContinuationLines(value, pos) + [[]]
    decreases |value| - pos
  {
    if pos < |value| {
      var end := Min(pos + LINE_WIDTH - 1, |value|);
      ContinuedLines(value, end);
      LineFirst([SP] + value[pos..end], Continued(value, end));
    }
  }

  predicate IsContinuationLine(line: Text) { 2 <= |line| <= 76 && line[0] == 32 }

  predicate AreContinuationLines(lines: seq<Text>) {
    && (forall i :: 0 <= i < |lines| ==> IsContinuationLine(lines[i]))
    && (forall i :: 0 <= i < |lines| - 1 ==> |lines[i]| == 76)
  }

  lemma {:induction false} ContinuationShape(value: Text, pos: nat)
    requires pos <= |value|
    ensures AreContinuationLines(ContinuationLines(value, pos))
    decreases |value| - pos
  {
    if pos < |value| {
      var end := Min(pos + LINE_WIDTH - 1, |value|);
      ContinuationShape(value, end);
      var line, rest := [SP] + value[pos..end], ContinuationLines(value, end);
      assert IsContinuationLine(line);
      assert rest != [] ==> |line| == LINE_WIDTH;
      assert ContinuationLines(value, pos) == [line] + rest;
    }
  }

  /** How much of a value the first line has room for, behind the name, the colon and the space. */
  function Room(name: Text): nat { if |name| > 74 then 0 else 74 - |name| }

  /** The folded field ends in a break, its first line starts with the field's name and is full if the
      value goes on, every other line starts with the space that was put there, and its lines are no
      longer than seventy-six bytes exactly when the name leaves room. */
  lemma FoldedLines(name: Text, value: Text)
    requires OneLine(name) && OneLine(value) && Folded(name, value).Some?
    ensures var lines := Lines(Folded(name, value).value);
      && |lines| >= 2 && lines[|lines| - 1] == []
      && name + [58, 32] <= lines[0]
      && |lines[0]| == |name| + 2 + (if |value| < Room(name) then |value| else Room(name))
      && AreContinuationLines(lines[1..|lines| - 1])
      && ((forall i :: 0 <= i < |lines| ==> |lines[i]| <= 76) <==> |name| + 2 <= 76)
  {
    hide Folded, Lines, ContinuationLines;
    var first := Min(FirstBudget(name), |value|);
    LinesOf(name, value);
    ContinuationShape(value, first);
    WholeShape(Prefix(name) + value[..first], ContinuationLines(value, first));
  }

  // A first line, continuation lines, and what is behind the last break.
  lemma WholeShape(line: Text, more: seq<Text>)
    requires AreContinuationLines(more)
    ensures var lines := [line] + more + [[]];
      && |lines| >= 2 && lines[|lines| - 1] == [] && lines[0] == line
      && AreContinuationLines(lines[1..|lines| - 1])
      && ((forall i :: 0 <= i < |lines| ==> |lines[i]| <= 76) <==> |line| <= 76)
  {
    var lines := [line] + more + [[]];
    assert lines[1..|lines| - 1] == more;
    forall i | 0 < i < |lines|
      ensures |lines[i]| <= 76
    {
      if i < |lines| - 1 { assert lines[i] == more[i - 1] && IsContinuationLine(more[i - 1]); }
    }
  }

  lemma LinesOf(name: Text, value: Text)
    requires OneLine(name) && OneLine(value) && Folded(name, value).Some?
    ensures var first := Min(FirstBudget(name), |value|);
      Lines(Folded(name, value).value) == [Prefix(name) + value[..first]] + ContinuationLines(value, first) + [[]]
  {
    hide ContinuationLines, Lines, Continued, CutsCleanly;
    var first := Min(FirstBudget(name), |value|);
    var line, rest := Prefix(name) + value[..first], ContinuationLines(value, first);
    assert Folded(name, value).value == line + M.CRLF + Continued(value, first);
    hide Folded;
    LineFirst(line, Continued(value, first));
    ContinuedLines(value, first);
    assert [line] + (rest + [[]]) == [line] + rest + [[]];
  }

  lemma UnfoldedByte(b: L.byte, rest: Text)
    requires b != L.CR
    ensures Unfolded([b] + rest) == [b] + Unfolded(rest)
  {
    var t := [b] + rest;
    assert t[0] == b && M.CRLF[0] == L.CR && (M.CRLF + [SP])[0] == L.CR;
    assert t[1..] == rest;
  }

  lemma HeadJoins(line: Text, rest: Text)
    requires line != []
    ensures [line[0]] + (line[1..] + rest) == line + rest
  {
  }

  lemma {:induction false} UnfoldedFirst(line: Text, rest: Text)
    requires OneLine(line)
    ensures Unfolded(line + rest) == line + Unfolded(rest)
    decreases |line|
  {
    if line == [] {
      assert line + rest == rest;
    } else {
      hide Unfolded;
      UnfoldedFirst(line[1..], rest);
      UnfoldedByte(line[0], line[1..] + rest);
      HeadJoins(line, rest);
      HeadJoins(line, Unfolded(rest));
    }
  }

  lemma ContinuedStep(value: Text, pos: nat)
    requires pos < |value|
    ensures var end := Min(pos + LINE_WIDTH - 1, |value|);
      var t, rest := M.CRLF + Continued(value, pos), M.CRLF + Continued(value, end);
      && t != M.CRLF && M.CRLF + [SP] <= t
      && t[2..] == [SP] + value[pos..end] + rest && t[3..] == value[pos..end] + rest
  {
    var end := Min(pos + LINE_WIDTH - 1, |value|);
    BreakThenLine(value[pos..end], Continued(value, end));
  }

  lemma BreakThenLine(line: Text, after: Text)
    ensures var t, rest := M.CRLF + ([SP] + line + M.CRLF + after), M.CRLF + after;
      && t != M.CRLF && M.CRLF + [SP] <= t
      && t[2..] == [SP] + line + rest && t[3..] == line + rest
  {
  }

  lemma {:induction false} ContinuedUnfolds(value: Text, pos: nat)
    requires pos <= |value| && OneLine(value)
    ensures Unfolded(M.CRLF + Continued(value, pos)) == value[pos..]
    decreases |value| - pos
  {
    var t := M.CRLF + Continued(value, pos);
    if pos == |value| {
      assert t == M.CRLF;
    } else {
      var end := Min(pos + LINE_WIDTH - 1, |value|);
      var rest := M.CRLF + Continued(value, end);
      ContinuedUnfolds(value, end);
      UnfoldedFirst(value[pos..end], rest);
      ContinuedStep(value, pos);
      hide Continued;
      assert Unfolded(t) == Unfolded(t[3..]);
      assert value[pos..end] + value[end..] == value[pos..];
    }
  }

  lemma FoldedIs(name: Text, value: Text)
    requires Folded(name, value).Some?
    ensures var first := Min(FirstBudget(name), |value|);
      Folded(name, value).value == Prefix(name) + value[..first] + (M.CRLF + Continued(value, first))
  {
    hide CutsCleanly, Continued;
  }

  /** Dropping every break with its space, and the final break, returns the name and the value
      exactly, whatever the value's bytes so long as none is a carriage return. */
  lemma FoldRoundTrip(name: Text, value: Text)
    requires OneLine(name) && OneLine(value) && Folded(name, value).Some?
    ensures Unfolded(Folded(name, value).value) == name + [58, 32] + value
  {
    var first := Min(FirstBudget(name), |value|);
    ContinuedUnfolds(value, first);
    var line := Prefix(name) + value[..first];
    UnfoldedFirst(line, M.CRLF + Continued(value, first));
    FoldedIs(name, value);
    hide Folded, Continued;
    assert line + value[first..] == Prefix(name) + (value[..first] + value[first..]);
    assert value[..first] + value[first..] == value;
  }

  /** Every value of one-byte characters folds. */
  lemma {:induction false} AsciiCutsCleanly(value: Text, pos: nat)
    requires pos <= |value| && forall i :: 0 <= i < |value| ==> value[i] < 0x80
    ensures CutsCleanly(value, pos)
    decreases |value| - pos
  {
    if pos < |value| {
      AsciiCutsCleanly(value, Min(pos + LINE_WIDTH - 1, |value|));
    }
  }

  /** The positions of the value at which a line ends. */
  predicate IsCut(first: nat, at: nat) { at >= first && (at - first) % 75 == 0 }

  lemma {:induction false} CutsAt(value: Text, pos: nat)
    requires pos <= |value|
    ensures CutsCleanly(value, pos) <==> forall at: nat :: IsCut(pos, at) ==> !Splits(value, at)
    decreases |value| - pos
  {
    if pos < |value| {
      var end := Min(pos + LINE_WIDTH - 1, |value|);
      CutsAt(value, end);
      forall at: nat | at < |value|
        ensures IsCut(pos, at) <==> at == pos || (end < |value| && IsCut(end, at))
      {
      }
      assert IsCut(pos, pos);
    }
  }

  /** The field is folded, rather than refused, exactly when no character of the value lies across
      one of the positions where a line ends. */
  lemma FoldsIff(name: Text, value: Text)
    ensures Folded(name, value).Some? <==>
      forall at: nat :: IsCut(Room(name), at) && at < |value| ==> !(128 <= value[at] < 192)
  {
    var first := Min(FirstBudget(name), |value|);
    CutsAt(value, first);
    assert FirstBudget(name) == Room(name);
    assert forall at: nat :: at < |value| ==> (IsCut(first, at) <==> IsCut(Room(name), at));
  }

  // ..... What the standard's reader makes of it .....

  /** Section 2.2.3 removes the break before a space, and not the space. */
  function StandardUnfolded(t: Text): Text {
    if t == [] || t == M.CRLF then []
    else if M.CRLF + [SP] <= t then StandardUnfolded(t[2..])
    else [t[0]] + StandardUnfolded(t[1..])
  }

  lemma {:induction false} StandardFirst(line: Text, rest: Text)
    requires OneLine(line)
    ensures |StandardUnfolded(line + rest)| == |line| + |StandardUnfolded(rest)|
    decreases |line|
  {
    if line == [] {
      assert line + rest == rest;
    } else {
      var t := line + rest;
      StandardFirst(line[1..], rest);
      assert t[0] == line[0] && M.CRLF[0] == L.CR && (M.CRLF + [SP])[0] == L.CR;
      assert t[1..] == line[1..] + rest;
    }
  }

  lemma {:induction false} StandardContinued(value: Text, pos: nat)
    requires pos <= |value| && OneLine(value)
    ensures |StandardUnfolded(M.CRLF + Continued(value, pos))| == |value| - pos + |ContinuationLines(value, pos)|
    decreases |value| - pos
  {
    var t := M.CRLF + Continued(value, pos);
    if pos == |value| {
      assert t == M.CRLF;
    } else {
      var end := Min(pos + LINE_WIDTH - 1, |value|);
      var rest := M.CRLF + Continued(value, end);
      StandardContinued(value, end);
      StandardFirst([SP] + value[pos..end], rest);
      ContinuedStep(value, pos);
      hide Continued;
      assert StandardUnfolded(t) == StandardUnfolded(t[2..]);
    }
  }

  /** So a reader that follows the standard gets the value back exactly when it fits on the first
      line; otherwise it finds one space more for every line that follows. */
  lemma StandardReaderSeesValueIff(name: Text, value: Text)
    requires OneLine(name) && OneLine(value) && Folded(name, value).Some?
    ensures var seen := StandardUnfolded(Folded(name, value).value);
      && |seen| == |name| + 2 + |value| + (|Lines(Folded(name, value).value)| - 2)
      && (seen == name + [58, 32] + value <==> |value| <= Room(name))
  {
    hide StandardUnfolded, Unfolded, Continued, ContinuationLines;
    var first := Min(FirstBudget(name), |value|);
    var line := Prefix(name) + value[..first];
    StandardContinued(value, first);
    StandardFirst(line, M.CRLF + Continued(value, first));
    FoldedIs(name, value);
    hide Folded;
    FitsIff(name, value);
    LinesOf(name, value);
    if |value| <= FirstBudget(name) { FitsPlainly(name, value); }
  }

  lemma FitsIff(name: Text, value: Text)
    ensures ContinuationLines(value, Min(FirstBudget(name), |value|)) == [] <==> |value| <= FirstBudget(name)
  {
  }

  lemma FitsPlainly(name: Text, value: Text)
    requires OneLine(name) && OneLine(value) && Folded(name, value).Some? && |value| <= FirstBudget(name)
    ensures StandardUnfolded(Folded(name, value).value) == Prefix(name) + value
  {
    hide StandardUnfolded, CutsCleanly;
    assert value[..|value|] == value;
    assert Continued(value, |value|) == [];
    var line := Prefix(name) + value;
    assert line + M.CRLF + [] == line + M.CRLF;
    StandardPlain(line);
  }

  lemma {:induction false} StandardPlain(line: Text)
    requires OneLine(line)
    ensures StandardUnfolded(line + M.CRLF) == line
    decreases |line|
  {
    if line == [] {
      assert line + M.CRLF == M.CRLF;
    } else {
      StandardPlain(line[1..]);
      var t := line + M.CRLF;
      assert t[0] == line[0] && M.CRLF[0] == L.CR && (M.CRLF + [SP])[0] == L.CR;
      assert t[1..] == line[1..] + M.CRLF;
    }
  }
}
