/** What follows, over whole sessions, from every turn being a legal one. */
module SessionSafety {
  import opened Wrappers
  import opened Texts
  import opened Commands
  import opened Lines
  import opened Messages
  import opened Wires
  import opened Inspection
  import opened Greeting
  import opened Dialogue
  import opened Session

  // ..... The envelope, read off the history .....

  /** The turn's command; the empty one when there is none. */
  function LineOf(env: Env, t: Turn): string {
    Command(env, t).GetOr("")
  }

  /** The turn's command opens with that verb. */
  ghost predicate HasVerb(env: Env, t: Turn, verb: string) {
    Command(env, t).Some? && Says(LineOf(env, t), verb)
  }

  lemma VerbOf(env: Env, t: Turn, verb: string)
    ensures HasVerb(env, t, verb) <==> Command(env, t).Some? && Verb(LineOf(env, t)) == verb
  {
    hide Says, Verb, Command;
    if Command(env, t).Some? { VerbIs(LineOf(env, t), verb); }
  }

  lemma HasVerbIs(env: Env, t: Turn)
    ensures forall verb ::
      HasVerb(env, t, verb) <==> Command(env, t).Some? && Verb(LineOf(env, t)) == verb
  {
    hide HasVerb, Verb, Command;
    forall verb
      ensures HasVerb(env, t, verb) <==> Command(env, t).Some? && Verb(LineOf(env, t)) == verb
    {
      VerbOf(env, t, verb);
    }
  }

  /** A turn's command is the text of the line it read, without the line's end. */
  lemma CommandIs(env: Env, t: Turn, line: seq<byte>, n: nat)
    requires t.client != [] && t.client[0] == Heard(Line(line)) && line != [] && n <= |line|
    requires forall i :: n <= i < |line| ==> line[i] == 13 || line[i] == 10
    requires n > 0 ==> line[n - 1] != 13 && line[n - 1] != 10
    ensures Command(env, t) == Some(env.lossy(line[..n]))
  {
    TrimmedUnique(line, n);
  }

  /** The turn read a message, or the end of one that was too large. */
  predicate ReadsToEnd(t: Turn) {
    && |t.client| >= 3 && t.client[2].HeardMessage?
    && (t.client[2].body.Message? || t.client[2].body == TooLarge)
  }

  /** A turn after which nothing is held: a reset, or a message read to its end. */
  ghost predicate Clears(env: Env, t: Turn) {
    HasVerb(env, t, "RSET") || (HasVerb(env, t, "DATA") && ReadsToEnd(t))
  }

  /** A sender is taken unless it is an outgoing one, not the null one, and over its quota. */
  ghost predicate AcceptsMail(env: Env, n: nat, t: Turn) {
    && HasVerb(env, t, "MAIL")
    && var sender := Named(LineOf(env, t));
       env.mode == Incoming || sender == "" || env.admits(n, AsciiLower(sender))
  }

  /** Where the envelope now held began: just after the last clear. */
  ghost predicate IsStart(env: Env, turns: seq<Turn>, c: nat) {
    && c <= |turns|
    && (c > 0 ==> Clears(env, turns[c - 1]))
    && forall k :: c <= k < |turns| ==> !Clears(env, turns[k])
  }

  /** The last accepted MAIL of the envelope now held. */
  ghost predicate IsLastMail(env: Env, turns: seq<Turn>, c: nat, m: nat) {
    && c <= m < |turns| && AcceptsMail(env, m, turns[m])
    && forall k :: m < k < |turns| ==> !AcceptsMail(env, k, turns[k])
  }

  /** The XFORWARD lines of the turns, as they came. */
  ghost function XforwardLines(env: Env, turns: seq<Turn>): seq<string> {
    if turns == [] then []
    else
      var t := turns[|turns| - 1];
      XforwardLines(env, turns[..|turns| - 1])
      + if HasVerb(env, t, "XFORWARD") then [LineOf(env, t)] else []
  }

  /** The addresses that the RCPT lines of the turns name, in their order. */
  ghost function Recipients(env: Env, turns: seq<Turn>): seq<string> {
    if turns == [] then []
    else
      var t := turns[|turns| - 1];
      Recipients(env, turns[..|turns| - 1])
      + if HasVerb(env, t, "RCPT") then [Named(LineOf(env, t))] else []
  }

  /** What the envelope is, said of the history alone. */
  ghost predicate HeldIs(env: Env, turns: seq<Turn>, c: nat, held: Held)
    requires IsStart(env, turns, c)
  {
    && held.xforward == XforwardLines(env, turns[c..])
    && (held.mailFrom.None? ==>
          held.recipients == [] && forall k :: c <= k < |turns| ==> !AcceptsMail(env, k, turns[k]))
    && (held.mailFrom.Some? ==>
          exists m: nat :: IsLastMail(env, turns, c, m)
            && held.mailFrom.value == Named(LineOf(env, turns[m]))
            && held.recipients == Recipients(env, turns[m + 1..]))
  }

  lemma XforwardAppend(env: Env, turns: seq<Turn>, c: nat)
    requires c < |turns|
    ensures var t := turns[|turns| - 1];
      XforwardLines(env, turns[c..]) == XforwardLines(env, turns[..|turns| - 1][c..])
        + if HasVerb(env, t, "XFORWARD") then [LineOf(env, t)] else []
  {
    assert turns[c..][..|turns| - 1 - c] == turns[..|turns| - 1][c..];
  }

  lemma RecipientsAppend(env: Env, turns: seq<Turn>, c: nat)
    requires c < |turns|
    ensures var t := turns[|turns| - 1];
      Recipients(env, turns[c..]) == Recipients(env, turns[..|turns| - 1][c..])
        + if HasVerb(env, t, "RCPT") then [Named(LineOf(env, t))] else []
  {
    assert turns[c..][..|turns| - 1 - c] == turns[..|turns| - 1][c..];
  }

  /** The loop's envelope is the history's: the XFORWARD lines since the last clear, the sender of
      the last accepted MAIL, and the recipients since it. */
  lemma {:induction false} EnvelopeFromHistory(env: Env, turns: seq<Turn>, c: nat)
    requires IsStart(env, turns, c)
    ensures HeldIs(env, turns, c, After(env, turns).held)
    decreases |turns|
  {
    hide HeldIs, After, Clears;
    if c == |turns| {
      EnvelopeStart(env, turns);
    } else {
      var n := |turns| - 1;
      var before, t := turns[..n], turns[n];
      assert IsStart(env, before, c) by {
        assert forall k :: c <= k < n ==> before[k] == turns[k];
      }
      EnvelopeFromHistory(env, before, c);
      EnvelopeStep(env, turns, c);
    }
  }

  lemma EnvelopeStart(env: Env, turns: seq<Turn>)
    requires turns != [] ==> Clears(env, turns[|turns| - 1])
    ensures IsStart(env, turns, |turns|) && HeldIs(env, turns, |turns|, After(env, turns).held)
  {
    hide Clears, AcceptsMail, IsLastMail;
    assert turns[|turns|..] == [];
    if turns != [] { ClearedPhase(env, turns); }
    assert After(env, turns).held == NOTHING_HELD;
  }

  lemma ClearedPhase(env: Env, turns: seq<Turn>)
    requires turns != [] && Clears(env, turns[|turns| - 1])
    ensures After(env, turns).held == NOTHING_HELD
  {
    hide HasVerb, Verb;
    HasVerbIs(env, turns[|turns| - 1]);
  }

  lemma EnvelopeStep(env: Env, turns: seq<Turn>, c: nat)
    requires c < |turns| && IsStart(env, turns, c) && IsStart(env, turns[..|turns| - 1], c)
    requires HeldIs(env, turns[..|turns| - 1], c, After(env, turns[..|turns| - 1]).held)
    ensures HeldIs(env, turns, c, After(env, turns).held)
  {
    var n := |turns| - 1;
    assert !Clears(env, turns[n]);
    hide XforwardLines, Recipients, After, Clears, Says, Named, AcceptsMail, IsStart;
    var was, now := After(env, turns[..n]).held, After(env, turns).held;
    assert now.xforward == XforwardLines(env, turns[c..]) by {
      assert was.xforward == XforwardLines(env, turns[..n][c..]);
      hide HeldIs;
      XforwardAppend(env, turns, c);
      XforwardStep(env, turns);
    }
    hide HeldIs;
    SenderStep(env, turns);
    if AcceptsMail(env, n, turns[n]) {
      MailReplaces(env, turns, c, now);
    } else if was.mailFrom.Some? {
      MailKept(env, turns, c, was, now);
    } else {
      NoMailYet(env, turns, c, was, now);
    }
  }

  lemma MailReplaces(env: Env, turns: seq<Turn>, c: nat, now: Held)
    requires c < |turns| && IsStart(env, turns, c) && AcceptsMail(env, |turns| - 1, turns[|turns| - 1])
    requires now.xforward == XforwardLines(env, turns[c..])
    requires now.mailFrom == Some(Named(LineOf(env, turns[|turns| - 1]))) && now.recipients == []
    ensures HeldIs(env, turns, c, now)
  {
    hide IsStart, Named, Says, XforwardLines;
    assert turns[|turns|..] == [];
    assert Recipients(env, []) == [];
    assert IsLastMail(env, turns, c, |turns| - 1);
  }

  lemma MailKept(env: Env, turns: seq<Turn>, c: nat, was: Held, now: Held)
    requires c < |turns| && IsStart(env, turns, c) && IsStart(env, turns[..|turns| - 1], c)
    requires HeldIs(env, turns[..|turns| - 1], c, was) && was.mailFrom.Some?
    requires !AcceptsMail(env, |turns| - 1, turns[|turns| - 1])
    requires now.xforward == XforwardLines(env, turns[c..]) && now.mailFrom == was.mailFrom
    requires var t := turns[|turns| - 1];
      now.recipients == was.recipients + if HasVerb(env, t, "RCPT") then [Named(LineOf(env, t))] else []
    ensures HeldIs(env, turns, c, now)
  {
    hide XforwardLines, Recipients, Named, Says, IsStart, AcceptsMail, Command;
    var before := turns[..|turns| - 1];
    var m: nat :| IsLastMail(env, before, c, m)
      && was.mailFrom.value == Named(LineOf(env, before[m]))
      && was.recipients == Recipients(env, before[m + 1..]);
    LastMailStays(env, turns, c, m);
    RecipientsAppend(env, turns, m + 1);
  }

  lemma LastMailStays(env: Env, turns: seq<Turn>, c: nat, m: nat)
    requires c < |turns| && IsLastMail(env, turns[..|turns| - 1], c, m)
    requires !AcceptsMail(env, |turns| - 1, turns[|turns| - 1])
    ensures m < |turns| - 1 && IsLastMail(env, turns, c, m)
  {
    hide AcceptsMail;
    assert forall k :: c <= k < |turns| - 1 ==> turns[..|turns| - 1][k] == turns[k];
  }

  lemma NoMailYet(env: Env, turns: seq<Turn>, c: nat, was: Held, now: Held)
    requires c < |turns| && IsStart(env, turns, c) && IsStart(env, turns[..|turns| - 1], c)
    requires HeldIs(env, turns[..|turns| - 1], c, was) && was.mailFrom.None?
    requires !AcceptsMail(env, |turns| - 1, turns[|turns| - 1])
    requires now == was.(xforward := XforwardLines(env, turns[c..]))
    ensures HeldIs(env, turns, c, now)
  {
    hide AcceptsMail, XforwardLines, IsStart;
    assert forall k :: c <= k < |turns| - 1 ==> turns[..|turns| - 1][k] == turns[k];
  }

  lemma SenderStep(env: Env, turns: seq<Turn>)
    requires turns != [] && !Clears(env, turns[|turns| - 1])
    ensures var n, t := |turns| - 1, turns[|turns| - 1];
      var was, now := After(env, turns[..n]).held, After(env, turns).held;
      if AcceptsMail(env, n, t)
      then now.mailFrom == Some(Named(LineOf(env, t))) && now.recipients == []
      else
        && now.mailFrom == was.mailFrom
        && now.recipients == was.recipients
             + if was.mailFrom.Some? && HasVerb(env, t, "RCPT") then [Named(LineOf(env, t))] else []
  {
    hide HasVerb, AddressOf, Named, Verb, AfterCommand;
    var n, t := |turns| - 1, turns[|turns| - 1];
    VerbOf(env, t, "RSET");
    VerbOf(env, t, "DATA");
    VerbOf(env, t, "MAIL");
    VerbOf(env, t, "RCPT");
    var p := After(env, turns[..n]);
    assert p.held.recipients + [] == p.held.recipients;
    assert After(env, turns) == NextPhase(env, n, p, t);
    if Command(env, t).Some? {
      NamedIsAddress(LineOf(env, t));
      assert BodyIn(t.client[1..]).Some? ==> t.client[2] == t.client[1..][1];
      CommandSender(env, n, p, LineOf(env, t), t.client[1..]);
    }
  }

  // What a command that clears nothing does to the sender and the recipients.
  lemma CommandSender(env: Env, n: nat, p: Phase, text: string, said: seq<Event>)
    requires Verb(text) != "RSET" && (Verb(text) == "DATA" ==> BodyIn(said).None?)
    ensures var was, now := p.held, AfterCommand(env, n, p, text, said).held;
      if Verb(text) == "MAIL" && !Throttled(env, n, AddressOf(text))
      then now.mailFrom == Some(AddressOf(text)) && now.recipients == []
      else
        && now.mailFrom == was.mailFrom
        && now.recipients == was.recipients
             + if was.mailFrom.Some? && Verb(text) == "RCPT" then [AddressOf(text)] else []
  {
    hide Verb, AddressOf, Throttled;
    assert p.held.recipients + [] == p.held.recipients;
  }

  lemma XforwardStep(env: Env, turns: seq<Turn>)
    requires turns != [] && !Clears(env, turns[|turns| - 1])
    ensures var t := turns[|turns| - 1];
      After(env, turns).held.xforward == After(env, turns[..|turns| - 1]).held.xforward
        + if HasVerb(env, t, "XFORWARD") then [LineOf(env, t)] else []
  {
    hide HasVerb, Verb, AddressOf, Throttled;
    HasVerbIs(env, turns[|turns| - 1]);
    var x := After(env, turns[..|turns| - 1]).held.xforward;
    assert x + [] == x;
  }

  // ..... A message goes downstream only after its envelope .....

  /** The message is the last thing a replay sends, and the whole script is answered before it. */
  lemma {:induction false} MessageAfterScript(
    env: Env, steps: seq<Step>, message: seq<byte>, asked: seq<Event>, i: nat)
    requires Replays(env, steps, message, asked)
    requires i < |asked| && asked[i].SentMessage?
    ensures asked[i] == SentMessage(message)
    ensures Answered(env, steps, asked[..i])
    ensures i == 2 * |steps| && |asked| <= i + 2
    ensures i + 1 < |asked| ==> asked[i + 1].HeardReply?
    decreases |steps|
  {
    if steps != [] {
      MessageAfterScript(env, steps[1..], message, asked[2..], i - 2);
      assert asked[..i][2..] == asked[2..][..i - 2];
    }
  }

  /** The `i`-th line of a replay was sent, and answered with that code. */
  predicate Exchanged(env: Env, asked: seq<Event>, i: nat, line: string, code: nat) {
    && 2 * i + 1 < |asked|
    && asked[2 * i] == Sent(env.utf8(line))
    && asked[2 * i + 1].HeardReply? && asked[2 * i + 1].reply.Ok? && asked[2 * i + 1].reply.value.code == code
  }

  /** Exactly an envelope was sent: its XFORWARD lines, its sender, each of its recipients, and DATA,
      every line answered as it must be before the next. */
  predicate EnvelopeSent(env: Env, xforward: seq<string>, sender: string, recipients: seq<string>, asked: seq<Event>) {
    var x, r := |xforward|, |recipients|;
    && |asked| == 2 * (x + r + 2)
    && (forall i :: 0 <= i < x ==> Exchanged(env, asked, i, xforward[i], 250))
    && Exchanged(env, asked, x, "MAIL FROM:<" + sender + ">", 250)
    && (forall i :: 0 <= i < r ==> Exchanged(env, asked, x + 1 + i, "RCPT TO:<" + recipients[i] + ">", 250))
    && Exchanged(env, asked, x + 1 + r, "DATA", 354)
  }

  lemma {:induction false} AnsweredAt(env: Env, steps: seq<Step>, asked: seq<Event>, i: nat)
    requires Answered(env, steps, asked)
    ensures |asked| == 2 * |steps|
    ensures i < |steps| ==> Exchanged(env, asked, i, steps[i].line, steps[i].code)
    decreases |steps|
  {
    if steps != [] {
      AnsweredAt(env, steps[1..], asked[2..], if i > 0 then i - 1 else 0);
    }
  }

  lemma ScriptSent(env: Env, held: Held, asked: seq<Event>)
    requires Answered(env, Script(held), asked)
    ensures EnvelopeSent(env, held.xforward, held.mailFrom.GetOr(""), held.recipients, asked)
  {
    hide Answered, Script, Exchanged;
    var steps, x := Script(held), |held.xforward|;
    ScriptShape(held);
    forall i | 0 <= i < |steps|
      ensures Exchanged(env, asked, i, steps[i].line, steps[i].code)
    {
      AnsweredAt(env, steps, asked, i);
    }
    AnsweredAt(env, steps, asked, 0);
    forall i | 0 <= i < |held.recipients|
      ensures Exchanged(env, asked, x + 1 + i, "RCPT TO:<" + held.recipients[i] + ">", 250)
    {
      assert steps[x + 1 + i] == Step("RCPT TO:<" + held.recipients[i] + ">", 250);
    }
  }

  /** Why a message may be sent downstream in turn `n`, after the events `before` of that turn:
      the client sent it there, it passed inspection under the sender of the last accepted MAIL,
      and exactly its envelope, sender stripped when so decided, was sent before it, every line in
      order and every line answered as it must be. */
  ghost predicate Justified(env: Env, turns: seq<Turn>, n: nat, before: seq<Event>, message: seq<byte>)
    requires n < |turns|
  {
    && HasVerb(env, turns[n], "DATA")
    && |turns[n].client| >= 3 && turns[n].client[2] == HeardMessage(Message(message))
    && exists c: nat, m: nat {:trigger IsStart(env, turns[..n], c), IsLastMail(env, turns[..n], c, m)} ::
         && IsStart(env, turns[..n], c)
         && IsLastMail(env, turns[..n], c, m)
         && var sender := Named(LineOf(env, turns[m]));
            var verdict := Inspect(env.mode, env.parse(message), sender);
            var recipients := Recipients(env, turns[m + 1..n]);
         && recipients != []
         && verdict.Accept?
         && EnvelopeSent(env, XforwardLines(env, turns[c..n]), if verdict.stripSender then "" else sender, recipients,
                         before)
  }

  lemma {:induction false} StartExists(env: Env, turns: seq<Turn>) returns (c: nat)
    ensures IsStart(env, turns, c)
    decreases |turns|
  {
    hide Clears;
    if turns == [] || Clears(env, turns[|turns| - 1]) {
      c := |turns|;
    } else {
      var n := |turns| - 1;
      c := StartExists(env, turns[..n]);
      assert forall k :: 0 <= k < n ==> turns[..n][k] == turns[k];
    }
  }

  /** Any message sent downstream in a legal run is justified, and each turn sends at most one. */
  lemma MessageJustified(env: Env, turns: seq<Turn>, n: nat, i: nat)
    requires LegalRun(env, turns) && n < |turns|
    requires i < |turns[n].queue| && turns[n].queue[i].SentMessage?
    ensures Justified(env, turns, n, turns[n].queue[..i], turns[n].queue[i].message)
    ensures forall j :: 0 <= j < |turns[n].queue| && turns[n].queue[j].SentMessage? ==> j == i
  {
    hide HasVerb, Named, XforwardLines, Recipients, Inspect, LegalRun, Script, Answered, Replays, After, HeldIs,
      Justified;
    var past, t := turns[..n], turns[n];
    var p := After(env, past);
    assert LegalTurn(env, n, p, t) by { LegalAt(env, turns, n); }
    var raw := DeliveryOf(env, n, p, t, i);
    var verdict := Inspect(env.mode, env.parse(raw), Sender(p.held));
    var steps := Script(Stripped(p.held, verdict));
    forall j | 0 <= j < |t.queue| && t.queue[j].SentMessage?
      ensures j == i
    {
      MessageAfterScript(env, steps, raw, t.queue, i);
      MessageAfterScript(env, steps, raw, t.queue, j);
    }
    MessageAfterScript(env, steps, raw, t.queue, i);
    var c := StartExists(env, past);
    EnvelopeFromHistory(env, past, c);
    JustifiedFrom(env, turns, n, c, raw, t.queue[..i]);
  }

  lemma JustifiedFrom(env: Env, turns: seq<Turn>, n: nat, c: nat, message: seq<byte>, before: seq<Event>)
    requires n < |turns| && HasVerb(env, turns[n], "DATA")
    requires |turns[n].client| >= 3 && turns[n].client[2] == HeardMessage(Message(message))
    requires IsStart(env, turns[..n], c)
    requires var held := After(env, turns[..n]).held;
      && HeldIs(env, turns[..n], c, held)
      && held.mailFrom.Some? && held.recipients != []
      && var verdict := Inspect(env.mode, env.parse(message), Sender(held));
         verdict.Accept? && Answered(env, Script(Stripped(held, verdict)), before)
    ensures Justified(env, turns, n, before, message)
  {
    hide Says, Named, XforwardLines, Recipients, Inspect, Script, Answered, After, EnvelopeSent;
    var past := turns[..n];
    var held := After(env, past).held;
    var m: nat :| IsLastMail(env, past, c, m)
      && held.mailFrom.value == Named(LineOf(env, past[m]))
      && held.recipients == Recipients(env, past[m + 1..]);
    assert past[c..] == turns[c..n] && past[m + 1..] == turns[m + 1..n] && past[m] == turns[m];
    var verdict := Inspect(env.mode, env.parse(message), Sender(held));
    ScriptSent(env, Stripped(held, verdict), before);
  }

  lemma LegalAt(env: Env, turns: seq<Turn>, n: nat)
    requires LegalRun(env, turns) && n < |turns|
    ensures LegalTurn(env, n, After(env, turns[..n]), turns[n])
  {
  }

  // Only a delivery sends a message.
  lemma DeliveryOf(env: Env, n: nat, p: Phase, t: Turn, i: nat) returns (raw: seq<byte>)
    requires LegalTurn(env, n, p, t)
    requires i < |t.queue| && t.queue[i].SentMessage?
    ensures HasVerb(env, t, "DATA")
    ensures |t.client| >= 3 && t.client[2] == HeardMessage(Message(raw))
    ensures p.open && p.held.mailFrom.Some? && p.held.recipients != []
    ensures var verdict := Inspect(env.mode, env.parse(raw), Sender(p.held));
      verdict.Accept? && Replays(env, Script(Stripped(p.held, verdict)), raw, t.queue)
  {
    hide Verb, AddressOf, HasVerb, Inspect, Script, Replays, Throttled, FinalReply;
    VerbOf(env, t, "DATA");
    assert t.client[1..][1] == t.client[2];
    raw := t.client[2].body.bytes;
  }

  // ..... After a refusal .....

  /** The turn's message was read to its end and refused. */
  ghost predicate Refused(env: Env, turns: seq<Turn>, n: nat)
    requires n < |turns|
  {
    var t := turns[n];
    && HasVerb(env, t, "DATA")
    && |t.client| >= 3 && t.client[2].HeardMessage? && t.client[2].body.Message?
    && Inspect(env.mode, env.parse(t.client[2].body.bytes), After(env, turns[..n]).held.mailFrom.GetOr("")).Refuse?
  }

  lemma {:induction false} ClosedForGood(env: Env, turns: seq<Turn>, n: nat, k: nat)
    requires n < k <= |turns| && Refused(env, turns, n)
    ensures !After(env, turns[..k]).open
    decreases k
  {
    hide HasVerb, Verb, AddressOf, Inspect, Throttled;
    VerbOf(env, turns[n], "DATA");
    assert turns[..k][..k - 1] == turns[..k - 1];
    if k > n + 1 {
      ClosedForGood(env, turns, n, k - 1);
      StaysClosed(env, turns[..k]);
    }
  }

  lemma StaysClosed(env: Env, turns: seq<Turn>)
    requires turns != [] && !After(env, turns[..|turns| - 1]).open
    ensures !After(env, turns).open
  {
  }

  lemma ClosedSendsNothing(env: Env, n: nat, p: Phase, t: Turn)
    requires LegalTurn(env, n, p, t) && !p.open
    ensures t.queue == []
  {
    hide Verb, AddressOf, Inspect, Script, Replays, Throttled, FinalReply;
  }

  lemma RefusalSendsNothing(env: Env, turns: seq<Turn>, n: nat)
    requires LegalRun(env, turns) && n < |turns| && Refused(env, turns, n)
    ensures turns[n].queue == [] || turns[n].queue == [Sent(env.utf8("QUIT"))]
  {
    VerbOf(env, turns[n], "DATA");
    hide HasVerb, Verb, AddressOf, Inspect, Script, Replays, Throttled, FinalReply;
    LegalAt(env, turns, n);
  }

  lemma {:induction false} QueueLogFrom(turns: seq<Turn>, n: nat)
    requires n < |turns| && forall k :: n < k < |turns| ==> turns[k].queue == []
    ensures QueueLog(turns) == QueueLog(turns[..n]) + turns[n].queue
    decreases |turns|
  {
    var last := |turns| - 1;
    if n < last {
      QueueLogFrom(turns[..last], n);
      assert turns[..last][..n] == turns[..n];
    }
  }

  lemma {:induction false} NeverClosedAt(env: Env, turns: seq<Turn>, n: nat)
    requires NeverClosed(env, turns) && n < |turns|
    ensures !Closes(env, After(env, turns[..n]), turns[n])
    decreases |turns|
  {
    hide Closes, After;
    var last := |turns| - 1;
    if n < last {
      NeverClosedAt(env, turns[..last], n);
      assert turns[..last][..n] == turns[..n];
    }
  }

  lemma RefusalClosesQueue(env: Env, turns: seq<Turn>, n: nat)
    requires n < |turns| && Refused(env, turns, n) && turns[n].queue != []
    ensures Closes(env, After(env, turns[..n]), turns[n])
  {
    hide HasVerb, Verb, Inspect, After, Command;
    var t := turns[n];
    VerbOf(env, t, "DATA");
    assert t.client[1..][1] == t.client[2];
    assert RefusalCloses(env, After(env, turns[..n]), t.client[1..], t.queue);
  }

  /** From the first refusal on, the queue is sent its closing line, at most once, and nothing else. */
  lemma NothingAfterRefusal(
    env: Env, up: seq<Event>, queue: seq<Event>, turns: seq<Turn>, closing: seq<Event>, n: nat)
    requires Served(env, up, queue, turns, closing) && n < |turns|
    ensures var sofar := 1 + |QueueLog(turns[..n])|;
      Refused(env, turns, n) ==>
        && sofar <= |queue| <= sofar + 1
        && forall j :: sofar <= j < |queue| ==> queue[j] == Sent(env.utf8("QUIT"))
  {
    hide Refused, Served, QueueLog;
    if Refused(env, turns, n) {
      OnlyClosingAfter(env, up, queue, turns, closing, n);
    }
  }

  lemma OnlyClosingAfter(
    env: Env, up: seq<Event>, queue: seq<Event>, turns: seq<Turn>, closing: seq<Event>, n: nat)
    requires Served(env, up, queue, turns, closing) && n < |turns| && Refused(env, turns, n)
    ensures var sofar := 1 + |QueueLog(turns[..n])|;
      && sofar <= |queue| <= sofar + 1
      && forall j :: sofar <= j < |queue| ==> queue[j] == Sent(env.utf8("QUIT"))
  {
    hide LegalTurn, After, Verb, Inspect, Closes, NeverClosed, Refused;
    if turns[n].queue != [] {
      RefusalClosesQueue(env, turns, n);
      if NeverClosed(env, turns) { NeverClosedAt(env, turns, n); }
    }
    forall k | n < k < |turns|
      ensures turns[k].queue == []
    {
      ClosedForGood(env, turns, n, k);
      LegalAt(env, turns, k);
      ClosedSendsNothing(env, k, After(env, turns[..k]), turns[k]);
    }
    RefusalSendsNothing(env, turns, n);
    QueueLogFrom(turns, n);
  }

  // ..... Whole sessions .....

  lemma {:induction false} TurnOf(turns: seq<Turn>, j: nat) returns (n: nat, i: nat)
    requires j < |QueueLog(turns)|
    ensures n < |turns| && i < |turns[n].queue|
    ensures j == |QueueLog(turns[..n])| + i && turns[n].queue[i] == QueueLog(turns)[j]
    decreases |turns|
  {
    var last := |turns| - 1;
    if j >= |QueueLog(turns[..last])| {
      n, i := last, j - |QueueLog(turns[..last])|;
    } else {
      n, i := TurnOf(turns[..last], j);
      assert turns[..last][..n] == turns[..n];
    }
  }

  /** In every session, whatever the client and the queue send: a message on the queue's wire was
      inspected and accepted, and its whole envelope went before it. */
  lemma EveryMessageJustified(
    env: Env, up: seq<Event>, queue: seq<Event>, turns: seq<Turn>, closing: seq<Event>, j: nat)
    requires Served(env, up, queue, turns, closing)
    requires j < |queue| && queue[j].SentMessage?
    ensures exists n, i {:trigger turns[n].queue[i]} ::
      && 0 <= n < |turns| && 0 <= i < |turns[n].queue|
      && j == 1 + |QueueLog(turns[..n])| + i
      && Justified(env, turns, n, turns[n].queue[..i], queue[j].message)
  {
    hide Served, Justified, LegalRun;
    InsideRun(env, up, queue, turns, closing, j);
    var n, i := TurnOf(turns, j - 1);
    MessageJustified(env, turns, n, i);
    assert turns[n].queue[i] == queue[j];
  }

  // A message on the queue's wire is one of the run's events.
  lemma InsideRun(env: Env, up: seq<Event>, queue: seq<Event>, turns: seq<Turn>, closing: seq<Event>, j: nat)
    requires Served(env, up, queue, turns, closing)
    requires j < |queue| && queue[j].SentMessage?
    ensures LegalRun(env, turns)
    ensures 1 <= j && j - 1 < |QueueLog(turns)| && QueueLog(turns)[j - 1] == queue[j]
  {
    hide LegalRun, NeverClosed, QueueLog, ClientLog;
    assert j >= 1 by { assert !queue[0].SentMessage?; }
    assert j - 1 < |QueueLog(turns)| by {
      assert closing != [] ==> queue[|queue| - 1] == closing[0];
    }
  }

  // ..... What else goes downstream .....

  const HELD_BACK := {"XFORWARD", "MAIL", "RCPT", "DATA", "RSET", "QUIT"}

  /** Outside a replay, the queue is sent the closing line or the client's own command, and never
      one of the commands that are answered here. */
  lemma OnlyRelayedCommands(env: Env, turns: seq<Turn>, n: nat, i: nat)
    requires LegalRun(env, turns) && n < |turns| && !HasVerb(env, turns[n], "DATA")
    requires i < |turns[n].queue| && !turns[n].queue[i].HeardReply?
    ensures Command(env, turns[n]).Some?
    ensures turns[n].queue[i] == Sent(env.utf8("QUIT"))
      || (turns[n].queue[i] == Sent(env.utf8(LineOf(env, turns[n])))
          && forall verb :: HasVerb(env, turns[n], verb) ==> verb !in HELD_BACK)
  {
    hide Verb, HasVerb, LegalCommand, LegalRun, After;
    LegalAt(env, turns, n);
    var t := turns[n];
    HasVerbIs(env, t);
    AskedOutside(env, n, After(env, turns[..n]), LineOf(env, t), t.client[1..], t.queue, i);
  }

  lemma AskedOutside(env: Env, n: nat, p: Phase, text: string, said: seq<Event>, asked: seq<Event>, i: nat)
    requires LegalCommand(env, n, p, text, said, asked) && Verb(text) != "DATA"
    requires i < |asked| && !asked[i].HeardReply?
    ensures asked[i] == Sent(env.utf8("QUIT"))
      || (Verb(text) !in HELD_BACK && asked[i] == Sent(env.utf8(text)))
  {
    hide Verb, AddressOf, Throttled, LegalData;
  }

  /** When the queue answered the message, the client was given that answer byte for byte, and
      only an answered message is reported so. */
  lemma ClientGetsQueuesAnswer(env: Env, turns: seq<Turn>, n: nat, i: nat)
    requires LegalRun(env, turns) && n < |turns|
    requires i < |turns[n].queue| && turns[n].queue[i].SentMessage?
    ensures |turns[n].queue| <= i + 2
    ensures var told, q := turns[n].client[3..], turns[n].queue;
      if i + 1 < |q| && q[i + 1].HeardReply? && q[i + 1].reply.Ok? then told == [SentRaw(q[i + 1].reply.value.raw)]
      else told == [] || told == [Sent(env.utf8("451 4.3.0 the queue would not take the message"))]
  {
    hide Verb, AddressOf, Inspect, Script, Replays, Throttled, HasVerb;
    LegalAt(env, turns, n);
    var t, p := turns[n], After(env, turns[..n]);
    var raw := DeliveryOf(env, n, p, t, i);
    var verdict := Inspect(env.mode, env.parse(raw), Sender(p.held));
    MessageAfterScript(env, Script(Stripped(p.held, verdict)), raw, t.queue, i);
    assert t.client[1..][2..] == t.client[3..];
    assert t.client[1..][1] == t.client[2];
  }

  // ..... What each command is answered .....

  /** The queue's wire was closed: by QUIT, or behind a refused message. */
  ghost predicate ClosedBy(env: Env, turns: seq<Turn>) {
    exists k :: 0 <= k < |turns| && (HasVerb(env, turns[k], "QUIT") || Refused(env, turns, k))
  }

  lemma {:induction false} OpenFromHistory(env: Env, turns: seq<Turn>)
    ensures After(env, turns).open <==> !ClosedBy(env, turns)
    decreases |turns|
  {
    hide HasVerb;
    if turns == [] {
      assert After(env, turns).open;
    } else {
      hide After;
      var n := |turns| - 1;
      OpenFromHistory(env, turns[..n]);
      OpenStep(env, turns);
      forall k | 0 <= k < n
        ensures turns[..n][k] == turns[k]
        ensures Refused(env, turns[..n], k) <==> Refused(env, turns, k)
      {
        assert turns[..n][..k] == turns[..k];
      }
    }
  }

  lemma OpenStep(env: Env, turns: seq<Turn>)
    requires turns != []
    ensures var n := |turns| - 1;
      After(env, turns).open <==>
        After(env, turns[..n]).open && !HasVerb(env, turns[n], "QUIT") && !Refused(env, turns, n)
  {
    hide Verb, HasVerb, AddressOf, Inspect, Throttled;
    HasVerbIs(env, turns[|turns| - 1]);
  }

  /** A MAIL was accepted for the envelope that is now held. */
  ghost predicate HasSender(env: Env, turns: seq<Turn>, c: nat) {
    exists m: nat :: IsLastMail(env, turns, c, m)
  }

  /** And a recipient since. */
  ghost predicate HasRecipient(env: Env, turns: seq<Turn>, c: nat) {
    exists m: nat :: IsLastMail(env, turns, c, m) && Recipients(env, turns[m + 1..]) != []
  }

  lemma HeldSinceMail(env: Env, turns: seq<Turn>, c: nat, m: nat, held: Held)
    requires IsStart(env, turns, c) && HeldIs(env, turns, c, held) && IsLastMail(env, turns, c, m)
    ensures Command(env, turns[m]).Some?
    ensures held.xforward == XforwardLines(env, turns[c..])
    ensures held.mailFrom == Some(Named(LineOf(env, turns[m])))
    ensures held.recipients == Recipients(env, turns[m + 1..])
  {
    hide IsStart, Recipients, XforwardLines, Says, Named;
    if held.mailFrom.Some? {
      var m': nat :| IsLastMail(env, turns, c, m')
        && held.mailFrom.value == Named(LineOf(env, turns[m']))
        && held.recipients == Recipients(env, turns[m' + 1..]);
      assert m' == m;
    }
  }

  lemma HeldFromHistory(env: Env, turns: seq<Turn>, c: nat)
    requires IsStart(env, turns, c)
    ensures After(env, turns).held.mailFrom.Some? <==> HasSender(env, turns, c)
    ensures Collects(After(env, turns)) <==> HasRecipient(env, turns, c)
  {
    hide IsStart, After, Recipients, XforwardLines, AcceptsMail, Named;
    EnvelopeFromHistory(env, turns, c);
    var held := After(env, turns).held;
    if held.mailFrom.Some? {
      var m: nat :| IsLastMail(env, turns, c, m)
        && held.recipients == Recipients(env, turns[m + 1..]);
      forall m': nat | IsLastMail(env, turns, c, m')
        ensures m' == m
      {
      }
    }
  }

  /** The client was told one line and nothing else. */
  predicate Told(env: Env, t: Turn, line: string) {
    |t.client| == 2 && t.client[1] == Sent(env.utf8(line))
  }

  /** Turn `n` is answered as the envelope that began at `c` demands. */
  ghost predicate AnsweredAsHeld(env: Env, turns: seq<Turn>, n: nat, c: nat)
    requires n < |turns|
  {
    var past, t := turns[..n], turns[n];
    && (HasVerb(env, t, "XFORWARD") || HasVerb(env, t, "RSET") ==> Told(env, t, "250 2.0.0 Ok"))
    && (HasVerb(env, t, "MAIL") ==>
          Told(env, t, if AcceptsMail(env, n, t) then "250 2.1.0 Ok"
                       else "450 4.7.1 too many messages, please slow down"))
    && (HasVerb(env, t, "RCPT") ==>
          Told(env, t, if HasSender(env, past, c) then "250 2.1.5 Ok" else "503 5.5.1 need MAIL before RCPT"))
    && (HasVerb(env, t, "DATA") ==>
          if HasRecipient(env, past, c)
          then |t.client| > 1 && t.client[1] == Sent(env.utf8("354 End data with <CR><LF>.<CR><LF>"))
          else Told(env, t, "503 5.5.1 need MAIL and RCPT before DATA"))
    && (HasVerb(env, t, "QUIT") ==> Told(env, t, "221 2.0.0 Bye"))
  }

  /** Every command that is answered here is answered as the history before it demands. */
  lemma AnsweredFromHistory(env: Env, turns: seq<Turn>, n: nat, c: nat)
    requires LegalRun(env, turns) && n < |turns| && IsStart(env, turns[..n], c)
    ensures AnsweredAsHeld(env, turns, n, c)
  {
    hide Verb, HasVerb, AddressOf, Named, LegalRun, LegalBody, LegalAsk, After, HasSender, HasRecipient, IsStart;
    LegalAt(env, turns, n);
    HeldFromHistory(env, turns[..n], c);
    var t := turns[n];
    HasVerbIs(env, t);
    if Command(env, t).Some? {
      NamedIsAddress(LineOf(env, t));
      assert t.client == [t.client[0]] + t.client[1..];
    }
  }

  /** A message that is too large, refused, or accepted when the queue is gone gets one answer, and
      the queue hears of none. */
  lemma MessageAnswers(env: Env, turns: seq<Turn>, n: nat)
    requires LegalRun(env, turns) && n < |turns| && HasVerb(env, turns[n], "DATA") && ReadsToEnd(turns[n])
    ensures var t, told := turns[n], turns[n].client[3..];
      var sender := After(env, turns[..n]).held.mailFrom.GetOr("");
      match t.client[2].body
      case TooLarge => told == [Sent(env.utf8("552 5.3.4 message exceeds the filter's size limit"))] && t.queue == []
      case Message(raw) =>
        (match Inspect(env.mode, env.parse(raw), sender)
         case Refuse(reply) =>
           told == [Sent(env.utf8(reply))] && (t.queue == [] || t.queue == [Sent(env.utf8("QUIT"))])
         case Accept(_) =>
           ClosedBy(env, turns[..n]) ==>
             told == [Sent(env.utf8("421 4.3.2 the queue connection is gone"))] && t.queue == [])
      case _ => true
  {
    hide Verb, HasVerb, AddressOf, LegalRun, LegalDelivery, After, ClosedBy, Inspect;
    LegalAt(env, turns, n);
    OpenFromHistory(env, turns[..n]);
    var t := turns[n];
    HasVerbIs(env, t);
    assert t.client[1..][1] == t.client[2];
    assert t.client[1..][2..] == t.client[3..];
  }

  /** Turn `n` asked the queue, and was answered with what it said. */
  ghost predicate RelaysAnswer(env: Env, turns: seq<Turn>, n: nat)
    requires n < |turns|
  {
    var t := turns[n];
    if ClosedBy(env, turns[..n]) then Told(env, t, "421 4.3.2 the queue connection is gone") && t.queue == []
    else
      && t.client != [] && t.queue != [] && t.queue[0] == Sent(env.utf8(LineOf(env, t)))
      && (|t.queue| > 1 ==>
            && |t.queue| == 2 && t.queue[1].HeardReply?
            && match t.queue[1].reply
               case Err(_) => t.client[1..] == []
               case Ok(r) =>
                 t.client[1..] == [SentRaw(if (HasVerb(env, t, "EHLO") || HasVerb(env, t, "HELO")) && r.code == 250
                                           then env.utf8(Announce(env.lossy(r.raw))) else r.raw)])
  }

  /** Any other command is the queue's to answer: its reply is relayed byte for byte, a greeting's
      capabilities filtered, and without a queue there is one answer. */
  lemma OthersRelayed(env: Env, turns: seq<Turn>, n: nat)
    requires LegalRun(env, turns) && n < |turns| && Command(env, turns[n]).Some?
    requires forall verb :: verb in HELD_BACK ==> !HasVerb(env, turns[n], verb)
    ensures RelaysAnswer(env, turns, n)
  {
    hide Verb, HasVerb, AddressOf, LegalRun, After, ClosedBy, Announce;
    LegalAt(env, turns, n);
    OpenFromHistory(env, turns[..n]);
    var t := turns[n];
    HasVerbIs(env, t);
    assert Verb(LineOf(env, t)) !in HELD_BACK;
    assert t.client == [t.client[0]] + t.client[1..];
  }

  // ..... Nothing justified is held back .....

  lemma {:induction false} ReplayStops(env: Env, steps: seq<Step>, message: seq<byte>, asked: seq<Event>)
    returns (k: nat)
    requires Replays(env, steps, message, asked) && EndsHearing(asked)
    ensures k <= |steps| && |asked| == 2 * k + 2 && asked[2 * k + 1].HeardReply?
    ensures Answered(env, steps[..k], asked[..2 * k])
    ensures if k == |steps| then asked[2 * k] == SentMessage(message)
            else
              && asked[2 * k] == Sent(env.utf8(steps[k].line))
              && (asked[2 * k + 1].reply.Err? || asked[2 * k + 1].reply.value.code != steps[k].code)
    decreases |steps|
  {
    k := 0;
    if steps != [] && AnsweredWith(asked[1], steps[0].code) {
      k := ReplayStops(env, steps[1..], message, asked[2..]);
      assert asked[..2 * k + 2][2..] == asked[2..][..2 * k];
      assert steps[..k + 1][1..] == steps[1..][..k];
      k := k + 1;
    }
  }

  /** Turn `n` collects a message that passes inspection, under the sender of the last accepted MAIL,
      while the queue is open. */
  ghost predicate Deliverable(env: Env, turns: seq<Turn>, n: nat, c: nat, m: nat, message: seq<byte>) {
    && n < |turns|
    && HasVerb(env, turns[n], "DATA") && !ClosedBy(env, turns[..n])
    && |turns[n].client| >= 3 && turns[n].client[2] == HeardMessage(Message(message))
    && IsStart(env, turns[..n], c) && IsLastMail(env, turns[..n], c, m)
    && Inspect(env.mode, env.parse(message), Named(LineOf(env, turns[m]))).Accept?
  }

  /** The message was sent behind `lines` lines, or one of them was answered otherwise than it must be. */
  predicate SentOrStopped(q: seq<Event>, lines: nat, message: seq<byte>) {
    && 2 <= |q| <= 2 * lines + 2 && |q| % 2 == 0 && q[|q| - 1].HeardReply?
    && if |q| == 2 * lines + 2 then q[|q| - 2] == SentMessage(message)
       else
         || q[|q| - 1].reply.Err?
         || q[|q| - 1].reply.value.code != if |q| == 2 * lines then 354 else 250
  }

  /** In a session whose writes were all taken, such a message is sent to the queue, unless some line
      of its envelope was given another answer than it must be. */
  lemma AcceptedMessageIsSent(env: Env, turns: seq<Turn>, n: nat, c: nat, m: nat, message: seq<byte>)
    requires Deliverable(env, turns, n, c, m, message)
    requires LegalRun(env, turns) && Uncut(env, turns, false)
    ensures SentOrStopped(turns[n].queue,
                          |XforwardLines(env, turns[c..n])| + |Recipients(env, turns[m + 1..n])| + 2, message)
  {
    hide LegalRun, Uncut, Says, Named, After, ClosedBy, Inspect, Script, Replays, IsStart, XforwardLines, Recipients,
      AcceptsMail, LegalTurn, WholeTurn, SentOrStopped, Answered;
    LegalAt(env, turns, n);
    WholeAt(env, turns, n);
    OpenFromHistory(env, turns[..n]);
    EnvelopeFromHistory(env, turns[..n], c);
    var held := After(env, turns[..n]).held;
    HeldSinceMail(env, turns[..n], c, m, held);
    assert turns[..n][c..] == turns[c..n] && turns[..n][m + 1..] == turns[m + 1..n] && turns[..n][m] == turns[m];
    ReplayIsWhole(env, n, After(env, turns[..n]), turns[n], message);
    ReplayEnds(env, Stripped(held, Inspect(env.mode, env.parse(message), Sender(held))), message, turns[n].queue);
  }

  lemma ReplayIsWhole(env: Env, n: nat, p: Phase, t: Turn, message: seq<byte>)
    requires LegalTurn(env, n, p, t) && WholeTurn(env, p, t)
    requires HasVerb(env, t, "DATA") && p.open
    requires |t.client| >= 3 && t.client[2] == HeardMessage(Message(message))
    requires Inspect(env.mode, env.parse(message), Sender(p.held)).Accept?
    ensures EndsHearing(t.queue)
    ensures var verdict := Inspect(env.mode, env.parse(message), Sender(p.held));
      Replays(env, Script(Stripped(p.held, verdict)), message, t.queue)
  {
    hide Verb, HasVerb, AddressOf, Throttled, Inspect, Script, Replays, FinalReply, EndsHearing, LegalAsk;
    VerbOf(env, t, "DATA");
    assert t.client[1..][1] == t.client[2];
    assert t.client[1..][2..] == t.client[3..];
  }

  lemma ReplayEnds(env: Env, held: Held, message: seq<byte>, asked: seq<Event>)
    requires Replays(env, Script(held), message, asked) && EndsHearing(asked)
    ensures SentOrStopped(asked, |held.xforward| + |held.recipients| + 2, message)
  {
    hide Script, Replays, Answered;
    ScriptShape(held);
    var k := ReplayStops(env, Script(held), message, asked);
    if k < |Script(held)| { ScriptCode(held, k); }
  }

  lemma ScriptCode(held: Held, k: nat)
    requires k < |Script(held)|
    ensures Script(held)[k].code == if k == |Script(held)| - 1 then 354 else 250
  {
  }

  lemma WholeAt(env: Env, turns: seq<Turn>, n: nat)
    requires Uncut(env, turns, false) && n < |turns|
    ensures WholeTurn(env, After(env, turns[..n]), turns[n])
  {
  }

  /** Why a turn is a session's last: the client's stream ended or failed, it quit, or the queue is
      needed and gone. */
  ghost predicate IsFinal(env: Env, turns: seq<Turn>, n: nat)
    requires n < |turns|
  {
    var t, past := turns[n], turns[..n];
    || Command(env, t).None?
    || HasVerb(env, t, "QUIT")
    || (HasVerb(env, t, "DATA") && |t.client| >= 3 && t.client[2].HeardMessage?
        && match t.client[2].body
           case Message(raw) =>
             && Inspect(env.mode, env.parse(raw), After(env, past).held.mailFrom.GetOr("")).Accept?
             && (ClosedBy(env, past) || (t.queue != [] && t.queue[|t.queue| - 1] == HeardReply(Err(Disconnected))))
           case TooLarge => false
           case Eof => true
           case Broken(_) => true)
    || ((forall verb :: verb in HELD_BACK ==> !HasVerb(env, t, verb))
        && (ClosedBy(env, past) || (|t.queue| > 1 && t.queue[1].HeardReply? && t.queue[1].reply.Err?)))
  }

  /** In a session whose writes were all taken, the loop goes on through every turn but the first
      final one. */
  lemma EndsExactlyWhenFinal(env: Env, turns: seq<Turn>, n: nat)
    requires LegalRun(env, turns) && Uncut(env, turns, false) && n < |turns|
    ensures IsFinal(env, turns, n) <==> n == |turns| - 1
  {
    hide LegalRun, Uncut, After, HasVerb, Verb, ClosedBy, Inspect, LegalTurn, CommandStops;
    assert LegalTurn(env, n, After(env, turns[..n]), turns[n]) by { LegalAt(env, turns, n); }
    assert TurnStops(env, After(env, turns[..n]), turns[n]) <==> n == |turns| - 1 by { StopsAt(env, turns, n); }
    OpenFromHistory(env, turns[..n]);
    StopsIsFinal(env, turns, n);
  }

  lemma StopsAt(env: Env, turns: seq<Turn>, n: nat)
    requires Uncut(env, turns, false) && n < |turns|
    ensures TurnStops(env, After(env, turns[..n]), turns[n]) <==> n == |turns| - 1
  {
  }

  lemma StopsIsFinal(env: Env, turns: seq<Turn>, n: nat)
    requires n < |turns| && LegalTurn(env, n, After(env, turns[..n]), turns[n])
    requires After(env, turns[..n]).open <==> !ClosedBy(env, turns[..n])
    ensures TurnStops(env, After(env, turns[..n]), turns[n]) <==> IsFinal(env, turns, n)
  {
    hide After, HasVerb, Verb, AddressOf, Throttled, ClosedBy, Inspect, LegalBody, LegalAsk, LegalRun, Uncut;
    var t := turns[n];
    HasVerbIs(env, t);
    if Command(env, t).Some? {
      var verb := Verb(LineOf(env, t));
      assert |t.client| >= 3 ==> t.client[1..][1] == t.client[2];
      if verb !in HELD_BACK {
        assert forall v :: v in HELD_BACK ==> !HasVerb(env, t, v);
      } else {
        assert HasVerb(env, t, verb);
      }
    }
  }
}
