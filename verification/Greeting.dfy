/** The greeting's answer: what the proxy announces of the capabilities its queue offers. */
module Greeting {
  import opened Wrappers
  import opened Texts
  import opened Commands

  const RELAYABLE := {"XFORWARD", "8BITMIME", "SIZE", "SMTPUTF8", "DSN", "ENHANCEDSTATUSCODES"}

  /** The lines of a text, without their ends. */
  function TextLines(s: string): seq<string> {
    if s == "" then []
    else match Find(s, '\n')
      case None => [s]
      case Some(i) => [if i > 0 && s[i - 1] == '\r' then s[..i - 1] else s[..i]] + TextLines(s[i + 1..])
  }

  function Utf8Size(c: char): nat {
    var n := c as int;
    if n < 0x80 then 1 else if n < 0x800 then 2 else if n < 0x1_0000 then 3 else 4
  }

  /** The text after `n` encoded bytes; absent when that is not a character boundary. */
  function AfterBytes(s: string, n: nat): Option<string> {
    if n == 0 then Some(s)
    else if s == "" || Utf8Size(s[0]) > n then None
    else AfterBytes(s[1..], n - Utf8Size(s[0]))
  }

  function CapabilityOf(line: string): seq<string> {
    match AfterBytes(line, 4)
    case Some(c) => if c != "" then [c] else []
    case None => []
  }

  function CapabilitiesOf(lines: seq<string>): seq<string> {
    if lines == [] then [] else CapabilityOf(lines[0]) + CapabilitiesOf(lines[1..])
  }

  /** What a reply offers, read from every line but its first. */
  function Capabilities(reply: string): seq<string> {
    var lines := TextLines(reply);
    if lines == [] then [] else CapabilitiesOf(lines[1..])
  }

  predicate IsRelayable(capability: string) {
    AsciiUpper(FirstWord(capability)) in RELAYABLE
  }

  /** An allowlist, so that nothing is announced that the proxy does not implement. */
  function Relayed(capabilities: seq<string>): seq<string> {
    if capabilities == [] then []
    else (if IsRelayable(capabilities[0]) then [capabilities[0]] else []) + Relayed(capabilities[1..])
  }

  const GREETING := "noombat-filtermail"

  function AnnouncedLines(kept: seq<string>): string {
    if kept == [] then ""
    else "250" + (if |kept| == 1 then " " else "-") + kept[0] + "\r\n" + AnnouncedLines(kept[1..])
  }

  function Announce(reply: string): string {
    var kept := Relayed(Capabilities(reply));
    if kept == [] then "250 " + GREETING + "\r\n"
    else "250-" + GREETING + "\r\n" + AnnouncedLines(kept)
  }

  // ..... The client hears exactly the relayable capabilities .....

  predicate OneLine(s: string) { forall i :: 0 <= i < |s| ==> s[i] != '\n' }

  lemma FirstTextLine(line: string, rest: string)
    requires OneLine(line)
    ensures TextLines(line + "\r\n" + rest) == [line] + TextLines(rest)
  {
    var s := line + "\r\n" + rest;
    assert s == (line + "\r") + "\n" + rest;
    FindAt(line + "\r", '\n', rest);
    assert s[..|line|] == line && s[|line| + 2..] == rest;
  }

  /** A line may also end in a bare line feed, and the last one in nothing. */
  lemma OtherTextLine(line: string, rest: string)
    requires OneLine(line)
    ensures (line == "" || line[|line| - 1] != '\r') ==> TextLines(line + "\n" + rest) == [line] + TextLines(rest)
    ensures line != "" ==> TextLines(line) == [line]
  {
    var s := line + "\n" + rest;
    FindAt(line, '\n', rest);
    assert s[..|line|] == line && s[|line| + 1..] == rest;
    FindNone(line, '\n');
  }

  lemma {:induction false} TextLinesAreLines(s: string)
    ensures forall i :: 0 <= i < |TextLines(s)| ==> OneLine(TextLines(s)[i])
    decreases |s|
  {
    if s != "" {
      var at := Find(s, '\n');
      var n := at.GetOr(|s|);
      FindIs(s, '\n');
      assert OneLine(s[..n]);
      if at.Some? { TextLinesAreLines(s[n + 1..]); }
    }
  }

  lemma {:induction false} AfterBytesIsLine(s: string, n: nat)
    requires OneLine(s) && AfterBytes(s, n).Some?
    ensures OneLine(AfterBytes(s, n).value)
    decreases n
  {
    if n > 0 { AfterBytesIsLine(s[1..], n - Utf8Size(s[0])); }
  }

  /** Capabilities a reply can carry: not empty, and one line each. */
  predicate AreCapabilities(capabilities: seq<string>) {
    forall i :: 0 <= i < |capabilities| ==> capabilities[i] != "" && OneLine(capabilities[i])
  }

  lemma {:induction false} CapabilitiesOfLines(lines: seq<string>)
    requires forall i :: 0 <= i < |lines| ==> OneLine(lines[i])
    ensures AreCapabilities(CapabilitiesOf(lines))
    decreases |lines|
  {
    if lines != [] {
      if AfterBytes(lines[0], 4).Some? { AfterBytesIsLine(lines[0], 4); }
      CapabilitiesOfLines(lines[1..]);
    }
  }

  lemma {:induction false} RelayedAreRelayable(capabilities: seq<string>)
    ensures forall i :: 0 <= i < |Relayed(capabilities)| ==> IsRelayable(Relayed(capabilities)[i])
    ensures AreCapabilities(capabilities) ==> AreCapabilities(Relayed(capabilities))
    decreases |capabilities|
  {
    if capabilities != [] { RelayedAreRelayable(capabilities[1..]); }
  }

  lemma CodeSkipped(separator: char, capability: string)
    requires separator == ' ' || separator == '-'
    requires capability != ""
    ensures CapabilityOf("250" + [separator] + capability) == [capability]
  {
    var s1, s2, s3 := "50" + [separator] + capability, "0" + [separator] + capability, [separator] + capability;
    var s := "250" + [separator] + capability;
    assert s[0] == '2' && s[1..] == s1 && s1[0] == '5' && s1[1..] == s2;
    assert s2[0] == '0' && s2[1..] == s3 && s3[1..] == capability;
    assert AfterBytes(s3, 1) == Some(capability);
    assert AfterBytes(s2, 2) == Some(capability);
    assert AfterBytes(s1, 3) == Some(capability);
  }

  lemma {:induction false} AnnouncedLinesParse(kept: seq<string>)
    requires AreCapabilities(kept)
    ensures CapabilitiesOf(TextLines(AnnouncedLines(kept))) == kept
    decreases |kept|
  {
    hide CapabilityOf;
    if kept != [] {
      var separator := if |kept| == 1 then ' ' else '-';
      var line := "250" + [separator] + kept[0];
      FirstTextLine(line, AnnouncedLines(kept[1..]));
      CodeSkipped(separator, kept[0]);
      AnnouncedLinesParse(kept[1..]);
    }
  }

  /** Whatever the queue replied, the client reads in the announcement exactly the relayable ones of
      the capabilities that the reply offers, in their order. */
  lemma AnnouncesRelayable(reply: string)
    ensures Capabilities(Announce(reply)) == Relayed(Capabilities(reply))
  {
    hide IsRelayable;
    var lines := TextLines(reply);
    var kept := Relayed(Capabilities(reply));
    TextLinesAreLines(reply);
    if lines != [] { CapabilitiesOfLines(lines[1..]); }
    RelayedAreRelayable(Capabilities(reply));
    FirstTextLine("250 " + GREETING, "");
    FirstTextLine("250-" + GREETING, AnnouncedLines(kept));
    AnnouncedLinesParse(kept);
    assert "250 " + GREETING + "\r\n" + "" == "250 " + GREETING + "\r\n";
  }

  /** Announcing an announcement changes nothing more. */
  lemma AnnounceSettles(reply: string)
    ensures Announce(Announce(reply)) == Announce(reply)
  {
    hide IsRelayable, Capabilities;
    AnnouncesRelayable(reply);
    RelayedTwice(Capabilities(reply));
  }

  lemma {:induction false} RelayedTwice(capabilities: seq<string>)
    ensures Relayed(Relayed(capabilities)) == Relayed(capabilities)
    decreases |capabilities|
  {
    if capabilities != [] {
      var c, rest := capabilities[0], Relayed(capabilities[1..]);
      RelayedTwice(capabilities[1..]);
      if IsRelayable(c) {
        assert ([c] + rest)[1..] == rest;
      } else {
        assert [] + rest == rest;
      }
    }
  }

  /** A capability is relayed exactly when it opens with one of the six words, whatever the case. */
  lemma RelayableIs(capability: string)
    ensures IsRelayable(capability) <==>
      || Says(capability, "XFORWARD") || Says(capability, "8BITMIME") || Says(capability, "SIZE")
      || Says(capability, "SMTPUTF8") || Says(capability, "DSN") || Says(capability, "ENHANCEDSTATUSCODES")
  {
    hide Says, FirstWord;
    assert AsciiUpper(FirstWord(capability)) == Verb(capability);
    hide Verb;
    forall word
      ensures Says(capability, word) <==> word == Verb(capability)
    {
      VerbIs(capability, word);
    }
  }

  /** Relaying keeps the relayable capabilities, as many of each as there were, and nothing else. */
  lemma {:induction false} RelayedIs(capabilities: seq<string>, c: string)
    ensures multiset(Relayed(capabilities))[c] == if IsRelayable(c) then multiset(capabilities)[c] else 0
    decreases |capabilities|
  {
    hide IsRelayable;
    if capabilities != [] {
      RelayedIs(capabilities[1..], c);
      assert capabilities == [capabilities[0]] + capabilities[1..];
    }
  }

  /** A reply offers what stands behind the code on each of its lines but the first. */
  lemma OffersLines(first: string, capabilities: seq<string>)
    requires OneLine(first) && AreCapabilities(capabilities)
    ensures Capabilities(first + "\r\n" + AnnouncedLines(capabilities)) == capabilities
  {
    hide CapabilityOf;
    FirstTextLine(first, AnnouncedLines(capabilities));
    AnnouncedLinesParse(capabilities);
  }

  /** The `k`-th of the lines that announce capabilities: the last has a space behind its code. */
  function AnnouncedLine(kept: seq<string>, k: nat): string
    requires k < |kept|
  {
    "250" + (if k == |kept| - 1 then " " else "-") + kept[k]
  }

  lemma {:induction false} AnnouncedLinesAre(kept: seq<string>)
    requires AreCapabilities(kept)
    ensures var lines := TextLines(AnnouncedLines(kept));
      |lines| == |kept| && forall k :: 0 <= k < |kept| ==> lines[k] == AnnouncedLine(kept, k)
    decreases |kept|
  {
    if kept != [] {
      hide TextLines;
      FirstTextLine(AnnouncedLine(kept, 0), AnnouncedLines(kept[1..]));
      AnnouncedLinesAre(kept[1..]);
      assert forall k :: 0 <= k < |kept| - 1 ==> AnnouncedLine(kept[1..], k) == AnnouncedLine(kept, k + 1);
    }
  }

  /** Line for line the announcement is the proxy's name and the capabilities kept, all with the code 250
      and a hyphen but the last, which has a space. */
  lemma AnnouncementLines(reply: string)
    ensures var kept, lines := Relayed(Capabilities(reply)), TextLines(Announce(reply));
      && |lines| == |kept| + 1
      && lines[0] == (if kept == [] then "250 " else "250-") + "noombat-filtermail"
      && forall k :: 0 <= k < |kept| ==> lines[k + 1] == AnnouncedLine(kept, k)
  {
    hide AnnouncedLine, Capabilities, Relayed, TextLines, AnnouncedLines, AreCapabilities;
    var kept := Relayed(Capabilities(reply));
    KeptAreCapabilities(reply);
    if kept == [] {
      GreetingAlone();
    } else {
      GreetingFirst(AnnouncedLines(kept));
      AnnouncedLinesAre(kept);
    }
  }

  lemma NoTextLines()
    ensures TextLines("") == []
  {
  }

  lemma GreetingAlone()
    ensures TextLines("250 " + GREETING + "\r\n") == ["250 " + "noombat-filtermail"]
  {
    hide TextLines;
    FirstTextLine("250 " + GREETING, "");
    assert "250 " + GREETING + "\r\n" + "" == "250 " + GREETING + "\r\n";
    NoTextLines();
  }

  lemma GreetingFirst(rest: string)
    ensures TextLines("250-" + GREETING + "\r\n" + rest) == ["250-" + "noombat-filtermail"] + TextLines(rest)
  {
    hide TextLines;
    FirstTextLine("250-" + GREETING, rest);
  }

  lemma KeptAreCapabilities(reply: string)
    ensures AreCapabilities(Relayed(Capabilities(reply)))
  {
    hide IsRelayable;
    var lines := TextLines(reply);
    TextLinesAreLines(reply);
    if lines != [] { CapabilitiesOfLines(lines[1..]); }
    RelayedAreRelayable(Capabilities(reply));
  }

  /** The bytes a text takes, one to four for a character as UTF-8 has it. */
  function EncodedSize(s: string): nat {
    if s == "" then 0
    else
      var n := s[0] as int;
      (if n <= 0x7F then 1 else if n <= 0x7FF then 2 else if n <= 0xFFFF then 3 else 4) + EncodedSize(s[1..])
  }

  /** A line offers what stands behind its first four bytes, when there is anything and the cut is not
      inside a character. */
  lemma CapabilityIs(line: string, c: string)
    ensures CapabilityOf(line) == [c] <==> c != "" && exists head :: EncodedSize(head) == 4 && line == head + c
  {
    if AfterBytes(line, 4).Some? {
      var head := AfterBytesSplits(line, 4);
    }
    if head :| EncodedSize(head) == 4 && line == head + c {
      AfterBytesOf(head, c);
    }
  }

  lemma {:induction false} AfterBytesSplits(s: string, n: nat) returns (head: string)
    requires AfterBytes(s, n).Some?
    ensures EncodedSize(head) == n && s == head + AfterBytes(s, n).value
    decreases n
  {
    head := "";
    if n > 0 {
      var more := AfterBytesSplits(s[1..], n - Utf8Size(s[0]));
      head := [s[0]] + more;
      assert head[1..] == more;
    }
  }

  lemma {:induction false} AfterBytesOf(head: string, rest: string)
    ensures AfterBytes(head + rest, EncodedSize(head)) == Some(rest)
    decreases |head|
  {
    var s := head + rest;
    if head == "" {
      assert s == rest;
    } else {
      AfterBytesOf(head[1..], rest);
      assert s[1..] == head[1..] + rest;
    }
  }
}
