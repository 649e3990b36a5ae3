/** The protocol of one proxy session: what each turn may say to the client and ask of the queue. */
module Dialogue {
  import opened Wrappers
  import opened Texts
  import opened Commands
  import opened Lines
  import opened Messages
  import opened Wires
  import opened Inspection
  import opened Greeting

  /** What a session depends on besides its two wires: the encodings, the MIME parser, and the
      limiter's answer in each turn. */
  datatype Env = Env(
    mode: Mode,
    lossy: seq<byte> -> string,
    utf8: string -> seq<byte>,
    parse: seq<byte> -> Option<Mime>,
    admits: (nat, string) -> bool)

  /** What the client has announced of its next message, none of it relayed yet. */
  datatype Held = Held(xforward: seq<string>, mailFrom: Option<string>, recipients: seq<string>)

  const NOTHING_HELD := Held([], None, [])

  /** One pass of the command loop: what passed on the client's wire and on the queue's. */
  datatype Turn = Turn(client: seq<Event>, queue: seq<Event>)

  /** What the loop carries from one turn to the next. */
  datatype Phase = Phase(held: Held, open: bool)

  // ..... Reading a command .....

  function Text(env: Env, line: seq<byte>): string {
    env.lossy(Trimmed(line))
  }

  /** The command of a turn; absent when the stream ended or failed instead. */
  function Command(env: Env, t: Turn): Option<string> {
    if t.client != [] && t.client[0].Heard? && t.client[0].result.Line? && t.client[0].result.bytes != []
    then Some(Text(env, t.client[0].result.bytes))
    else None
  }

  predicate Throttled(env: Env, n: nat, sender: string) {
    env.mode.Outgoing? && sender != "" && !env.admits(n, AsciiLower(sender))
  }

  function InspectRaw(env: Env, raw: seq<byte>, mailFrom: string): Verdict {
    Inspect(env.mode, env.parse(raw), mailFrom)
  }

  // ..... Replaying the envelope .....

  datatype Step = Step(line: string, code: nat)

  function XforwardSteps(xs: seq<string>): seq<Step> {
    seq(|xs|, i requires 0 <= i < |xs| => Step(xs[i], 250))
  }

  function RecipientSteps(rs: seq<string>): seq<Step> {
    seq(|rs|, i requires 0 <= i < |rs| => Step("RCPT TO:<" + rs[i] + ">", 250))
  }

  /** The lines that replay an envelope, each with the code it must be answered. */
  function Script(held: Held): seq<Step> {
    XforwardSteps(held.xforward)
    + [Step("MAIL FROM:<" + held.mailFrom.GetOr("") + ">", 250)]
    + RecipientSteps(held.recipients)
    + [Step("DATA", 354)]
  }

  predicate AnsweredWith(e: Event, code: nat) {
    e.HeardReply? && e.reply.Ok? && e.reply.value.code == code
  }

  /** Every step sent, in order, and answered as it must be before the next. */
  predicate Answered(env: Env, steps: seq<Step>, asked: seq<Event>) {
    if steps == [] then asked == []
    else
      && |asked| >= 2
      && asked[0] == Sent(env.utf8(steps[0].line)) && AnsweredWith(asked[1], steps[0].code)
      && Answered(env, steps[1..], asked[2..])
  }

  /** A replay as far as it got: it stops at the first step not answered as it must be, and the
      message follows only the whole script. */
  predicate Replays(env: Env, steps: seq<Step>, message: seq<byte>, asked: seq<Event>) {
    if steps == [] then
      || asked == [SentMessage(message)]
      || (|asked| == 2 && asked[0] == SentMessage(message) && asked[1].HeardReply?)
    else
      && asked != [] && asked[0] == Sent(env.utf8(steps[0].line))
      && (|asked| > 1 ==>
            && asked[1].HeardReply?
            && if AnsweredWith(asked[1], steps[0].code)
               then |asked| > 2 && Replays(env, steps[1..], message, asked[2..])
               else |asked| == 2)
  }

  // The queue's reply to the message, when a replay got that far.
  function FinalReply(asked: seq<Event>): Option<Reply> {
    if |asked| >= 2 && asked[|asked| - 2].SentMessage?
       && asked[|asked| - 1].HeardReply? && asked[|asked| - 1].reply.Ok?
    then Some(asked[|asked| - 1].reply.value)
    else None
  }

  // ..... The turns .....

  // The lines the proxy says itself, as opposed to relaying.
  const OK := "250 2.0.0 Ok"
  const SENDER_OK := "250 2.1.0 Ok"
  const RECIPIENT_OK := "250 2.1.5 Ok"
  const SLOW_DOWN := "450 4.7.1 too many messages, please slow down"
  const NEED_MAIL := "503 5.5.1 need MAIL before RCPT"
  const NEED_RCPT := "503 5.5.1 need MAIL and RCPT before DATA"
  const GO_AHEAD := "354 End data with <CR><LF>.<CR><LF>"
  const OVERSIZE := "552 5.3.4 message exceeds the filter's size limit"
  const BYE := "221 2.0.0 Bye"
  const CLOSE := "QUIT"
  const GONE := "421 4.3.2 the queue connection is gone"
  const NO_QUEUE := "451 4.3.0 the queue would not take the message"

  predicate LegalAsk(env: Env, open: bool, text: string, said: seq<Event>, asked: seq<Event>) {
    if !open then said == [Sent(env.utf8(GONE))] && asked == []
    else
      && asked != [] && asked[0] == Sent(env.utf8(text))
      && (|asked| == 1 ==> said == [])
      && (|asked| > 1 ==>
            && |asked| == 2 && asked[1].HeardReply?
            && match asked[1].reply
               case Err(_) => said == []
               case Ok(r) =>
                 said == [SentRaw(if Verb(text) in {"EHLO", "HELO"} && r.code == 250
                                  then env.utf8(Announce(env.lossy(r.raw))) else r.raw)])
  }

  function Sender(held: Held): string { held.mailFrom.GetOr("") }

  function Stripped(held: Held, verdict: Verdict): Held
    requires verdict.Accept?
  {
    if verdict.stripSender then held.(mailFrom := Some("")) else held
  }

  predicate LegalDelivery(env: Env, held: Held, raw: seq<byte>, said: seq<Event>, asked: seq<Event>) {
    && Replays(env, Script(held), raw, asked)
    && match FinalReply(asked)
       case Some(r) => said == [SentRaw(r.raw)]
       case None => said == [] || said == [Sent(env.utf8(NO_QUEUE))]
  }

  predicate LegalMessage(env: Env, p: Phase, raw: seq<byte>, said: seq<Event>, asked: seq<Event>) {
    match InspectRaw(env, raw, Sender(p.held))
    case Refuse(reply) =>
      && said == [Sent(env.utf8(reply))]
      && (asked == [] || (p.open && asked == [Sent(env.utf8(CLOSE))]))
    case Accept(strip) =>
      if !p.open then said == [Sent(env.utf8(GONE))] && asked == []
      else LegalDelivery(env, Stripped(p.held, Accept(strip)), raw, said, asked)
  }

  predicate LegalBody(env: Env, p: Phase, body: Body, said: seq<Event>, asked: seq<Event>) {
    match body
    case Message(raw) => LegalMessage(env, p, raw, said, asked)
    case TooLarge => said == [Sent(env.utf8(OVERSIZE))] && asked == []
    case _ => said == [] && asked == []
  }

  predicate LegalData(env: Env, p: Phase, said: seq<Event>, asked: seq<Event>) {
    if p.held.mailFrom.None? || p.held.recipients == [] then
      said == [Sent(env.utf8(NEED_RCPT))] && asked == []
    else
      && said != [] && said[0] == Sent(env.utf8(GO_AHEAD))
      && (|said| == 1 ==> asked == [])
      && (|said| > 1 ==> said[1].HeardMessage? && LegalBody(env, p, said[1].body, said[2..], asked))
  }

  predicate LegalCommand(env: Env, n: nat, p: Phase, text: string, said: seq<Event>, asked: seq<Event>) {
    match Verb(text)
    case "XFORWARD" => said == [Sent(env.utf8(OK))] && asked == []
    case "MAIL" =>
      && said == [Sent(env.utf8(if Throttled(env, n, AddressOf(text))
                                then SLOW_DOWN else SENDER_OK))]
      && asked == []
    case "RCPT" =>
      && said == [Sent(env.utf8(if p.held.mailFrom.None?
                                then NEED_MAIL else RECIPIENT_OK))]
      && asked == []
    case "DATA" => LegalData(env, p, said, asked)
    case "RSET" => said == [Sent(env.utf8(OK))] && asked == []
    case "QUIT" =>
      && said == [Sent(env.utf8(BYE))]
      && asked == if p.open then [Sent(env.utf8(CLOSE))] else []
    case _ => LegalAsk(env, p.open, text, said, asked)
  }

  predicate LegalTurn(env: Env, n: nat, p: Phase, t: Turn) {
    && t.client != [] && t.client[0].Heard?
    && match Command(env, t)
       case None => |t.client| == 1 && t.queue == []
       case Some(text) => LegalCommand(env, n, p, text, t.client[1..], t.queue)
  }

  /** The message a `DATA` command read, when it read one to its end. */
  function BodyIn(said: seq<Event>): Option<Body> {
    if |said| >= 2 && said[1].HeardMessage? && (said[1].body.Message? || said[1].body.TooLarge?)
    then Some(said[1].body)
    else None
  }

  /** A message that was read to its end clears the envelope, and a refused one closes the queue. */
  function AfterBody(env: Env, p: Phase, body: Body): Phase {
    Phase(NOTHING_HELD,
          p.open && !(body.Message? && InspectRaw(env, body.bytes, Sender(p.held)).Refuse?))
  }

  function AfterData(env: Env, p: Phase, said: seq<Event>): Phase {
    if BodyIn(said).Some? then AfterBody(env, p, BodyIn(said).value) else p
  }

  function AfterCommand(env: Env, n: nat, p: Phase, text: string, said: seq<Event>): Phase {
    match Verb(text)
    case "XFORWARD" => p.(held := p.held.(xforward := p.held.xforward + [text]))
    case "MAIL" =>
      if Throttled(env, n, AddressOf(text)) then p
      else p.(held := p.held.(mailFrom := Some(AddressOf(text)), recipients := []))
    case "RCPT" =>
      if p.held.mailFrom.None? then p
      else p.(held := p.held.(recipients := p.held.recipients + [AddressOf(text)]))
    case "DATA" => AfterData(env, p, said)
    case "RSET" => p.(held := NOTHING_HELD)
    case "QUIT" => p.(open := false)
    case _ => p
  }

  function NextPhase(env: Env, n: nat, p: Phase, t: Turn): Phase {
    match Command(env, t)
    case None => p
    case Some(text) => AfterCommand(env, n, p, text, t.client[1..])
  }

  function After(env: Env, turns: seq<Turn>): Phase {
    if turns == [] then Phase(NOTHING_HELD, true)
    else NextPhase(env, |turns| - 1, After(env, turns[..|turns| - 1]), turns[|turns| - 1])
  }

  // ..... Closing the queue's wire .....

  /** The `DATA` command had its message refused, and the closing line was sent. */
  predicate RefusalCloses(env: Env, p: Phase, said: seq<Event>, asked: seq<Event>) {
    && BodyIn(said).Some? && BodyIn(said).value.Message?
    && InspectRaw(env, BodyIn(said).value.bytes, Sender(p.held)).Refuse?
    && asked != []
  }

  /** The command closed the queue's wire. */
  predicate CommandCloses(env: Env, p: Phase, text: string, said: seq<Event>, asked: seq<Event>) {
    (Verb(text) == "QUIT" && asked != []) || (Verb(text) == "DATA" && RefusalCloses(env, p, said, asked))
  }

  predicate Closes(env: Env, p: Phase, t: Turn) {
    Command(env, t).Some? && t.client != [] && CommandCloses(env, p, Command(env, t).value, t.client[1..], t.queue)
  }

  /** No turn has closed the queue's wire. */
  predicate NeverClosed(env: Env, turns: seq<Turn>) {
    turns != [] ==>
      var n := |turns| - 1;
      NeverClosed(env, turns[..n]) && !Closes(env, After(env, turns[..n]), turns[n])
  }

  predicate LegalRun(env: Env, turns: seq<Turn>) {
    forall n :: 0 <= n < |turns| ==> LegalTurn(env, n, After(env, turns[..n]), turns[n])
  }

  function ClientLog(turns: seq<Turn>): seq<Event> {
    if turns == [] then [] else ClientLog(turns[..|turns| - 1]) + turns[|turns| - 1].client
  }

  function QueueLog(turns: seq<Turn>): seq<Event> {
    if turns == [] then [] else QueueLog(turns[..|turns| - 1]) + turns[|turns| - 1].queue
  }

  lemma RunExtends(env: Env, turns: seq<Turn>, t: Turn)
    requires LegalRun(env, turns) && LegalTurn(env, |turns|, After(env, turns), t)
    ensures var more := turns + [t];
      && LegalRun(env, more)
      && After(env, more) == NextPhase(env, |turns|, After(env, turns), t)
      && ClientLog(more) == ClientLog(turns) + t.client
      && QueueLog(more) == QueueLog(turns) + t.queue
  {
    var more := turns + [t];
    assert more[..|turns|] == turns;
    forall n | 0 <= n < |more|
      ensures LegalTurn(env, n, After(env, more[..n]), more[n])
    {
      if n < |turns| { assert more[..n] == turns[..n]; }
    }
  }

  // ..... A turn whose every write was taken .....

  predicate EndsHearing(asked: seq<Event>) {
    asked != [] && asked[|asked| - 1].HeardReply?
  }

  /** The replay ended with what the queue said, and the client hears of it unless the queue is gone. */
  predicate WholeDelivery(env: Env, said: seq<Event>, asked: seq<Event>) {
    && EndsHearing(asked)
    && (FinalReply(asked).None? ==>
          said == if asked[|asked| - 1].reply == Err(Disconnected) then [] else [Sent(env.utf8(NO_QUEUE))])
  }

  predicate WholeMessage(env: Env, p: Phase, raw: seq<byte>, said: seq<Event>, asked: seq<Event>) {
    match InspectRaw(env, raw, Sender(p.held))
    case Refuse(_) => asked == if p.open then [Sent(env.utf8(CLOSE))] else []
    case Accept(_) => p.open ==> WholeDelivery(env, said, asked)
  }

  predicate Collects(p: Phase) {
    p.held.mailFrom.Some? && p.held.recipients != []
  }

  /** Nothing the command asks for was left out. */
  predicate WholeCommand(env: Env, p: Phase, text: string, said: seq<Event>, asked: seq<Event>) {
    match Verb(text)
    case "XFORWARD" => true
    case "MAIL" => true
    case "RCPT" => true
    case "DATA" =>
      Collects(p) ==>
        && |said| > 1 && said[1].HeardMessage?
        && (said[1].body.Message? ==> WholeMessage(env, p, said[1].body.bytes, said[2..], asked))
    case "RSET" => true
    case "QUIT" => true
    case _ => p.open ==> |asked| == 2
  }

  /** Why no command can follow the body: its reading failed, or its message needs a queue that is gone. */
  predicate BodyStops(env: Env, p: Phase, body: Body, asked: seq<Event>) {
    match body
    case Message(raw) =>
      && InspectRaw(env, raw, Sender(p.held)).Accept?
      && (!p.open || (asked != [] && asked[|asked| - 1] == HeardReply(Err(Disconnected))))
    case TooLarge => false
    case _ => true
  }

  /** The command is the session's last. */
  predicate CommandStops(env: Env, p: Phase, text: string, said: seq<Event>, asked: seq<Event>) {
    match Verb(text)
    case "XFORWARD" => false
    case "MAIL" => false
    case "RCPT" => false
    case "DATA" =>
      Collects(p) && |said| > 1 && said[1].HeardMessage? && BodyStops(env, p, said[1].body, asked)
    case "RSET" => false
    case "QUIT" => true
    case _ => !p.open || (|asked| > 1 && asked[1].HeardReply? && asked[1].reply.Err?)
  }

  predicate WholeTurn(env: Env, p: Phase, t: Turn) {
    Command(env, t).Some? && t.client != [] ==> WholeCommand(env, p, Command(env, t).value, t.client[1..], t.queue)
  }

  predicate TurnStops(env: Env, p: Phase, t: Turn) {
    Command(env, t).Some? && t.client != [] ==> CommandStops(env, p, Command(env, t).value, t.client[1..], t.queue)
  }

  /** Every turn is whole, and the first that stops the session is the last one there is. */
  predicate Uncut(env: Env, turns: seq<Turn>, going: bool) {
    && (!going ==> turns != [])
    && forall n :: 0 <= n < |turns| ==>
         && WholeTurn(env, After(env, turns[..n]), turns[n])
         && (TurnStops(env, After(env, turns[..n]), turns[n]) <==> !going && n == |turns| - 1)
  }

  lemma UncutExtends(env: Env, turns: seq<Turn>, t: Turn, go: bool)
    requires Uncut(env, turns, true)
    requires WholeTurn(env, After(env, turns), t) && (TurnStops(env, After(env, turns), t) <==> !go)
    ensures Uncut(env, turns + [t], go)
  {
    hide WholeTurn, TurnStops, After;
    var more := turns + [t];
    assert more[..|turns|] == turns;
    forall n | 0 <= n < |more|
      ensures WholeTurn(env, After(env, more[..n]), more[n])
      ensures TurnStops(env, After(env, more[..n]), more[n]) <==> !go && n == |turns|
    {
      if n < |turns| { assert more[..n] == turns[..n]; }
    }
  }

  /** Where each line of the script comes from. */
  lemma ScriptShape(held: Held)
    ensures var s, x := Script(held), |held.xforward|;
      && |s| == x + |held.recipients| + 2
      && (forall i :: 0 <= i < x ==> s[i] == Step(held.xforward[i], 250))
      && s[x] == Step("MAIL FROM:<" + held.mailFrom.GetOr("") + ">", 250)
      && (forall j :: 0 <= j < |held.recipients| ==>
            s[x + 1 + j] == Step("RCPT TO:<" + held.recipients[j] + ">", 250))
      && s[|s| - 1] == Step("DATA", 354)
  {
  }

  lemma {:induction false} ReplayContinues(
    env: Env, steps: seq<Step>, rest: seq<Step>, message: seq<byte>, asked: seq<Event>, more: seq<Event>)
    requires Answered(env, steps, asked) && more != [] && Replays(env, rest, message, more)
    ensures Replays(env, steps + rest, message, asked + more)
    decreases |steps|
  {
    if steps == [] {
      assert steps + rest == rest && asked + more == more;
    } else {
      ReplayContinues(env, steps[1..], rest, message, asked[2..], more);
      assert (steps + rest)[1..] == steps[1..] + rest;
      assert (asked + more)[2..] == asked[2..] + more;
    }
  }

  lemma {:induction false} AnsweredAppend(
    env: Env, steps: seq<Step>, asked: seq<Event>, step: Step, sent: Event, answer: Event)
    requires Answered(env, steps, asked)
    requires sent == Sent(env.utf8(step.line)) && AnsweredWith(answer, step.code)
    ensures Answered(env, steps + [step], asked + [sent, answer])
    decreases |steps|
  {
    if steps == [] {
      assert steps + [step] == [step] && asked + [sent, answer] == [sent, answer];
    } else {
      AnsweredAppend(env, steps[1..], asked[2..], step, sent, answer);
      assert (steps + [step])[1..] == steps[1..] + [step];
      assert (asked + [sent, answer])[2..] == asked[2..] + [sent, answer];
    }
  }

  // A step's answer is the last thing an answered script heard.
  lemma {:induction false} AnsweredEnd(env: Env, steps: seq<Step>, asked: seq<Event>)
    requires Answered(env, steps, asked)
    ensures asked != [] ==> asked[|asked| - 1].HeardReply?
    decreases |steps|
  {
    if steps != [] {
      AnsweredEnd(env, steps[1..], asked[2..]);
    }
  }
}
