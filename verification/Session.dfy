/** The proxy session itself: the command loop, the replay, and the two ends of its life. */
module Session {
  import opened Wrappers
  import opened Texts
  import opened Commands
  import opened Lines
  import opened Messages
  import opened Wires
  import opened Inspection
  import opened Greeting
  import opened Dialogue

  class Envelope {
    var xforward: seq<string>
    var mailFrom: Option<string>
    var recipients: seq<string>

    function Contents(): Held reads this {
      Held(xforward, mailFrom, recipients)
    }

    constructor ()
      ensures Contents() == NOTHING_HELD
    {
      xforward, mailFrom, recipients := [], None, [];
    }

    method Clear()
      modifies this
      ensures Contents() == NOTHING_HELD
    {
      xforward, mailFrom, recipients := [], None, [];
    }
  }

  /** The replay ended with what it heard, and its outcome says whether that was the queue's end. */
  predicate HeardOut(asked: seq<Event>, r: Result<Reply, IoError>) {
    && EndsHearing(asked)
    && (r.Err? ==> (r.error == Disconnected <==> asked[|asked| - 1].reply == Err(Disconnected)))
  }

  // Send the next line of the script and require its answer.
  method Exchange(env: Env, down: Wire, step: Step,
                  ghost script: seq<Step>, ghost i: nat, ghost message: seq<byte>,
                  ghost base: seq<Event>, ghost asked: seq<Event>)
    returns (r: Result<Reply, IoError>, ghost asked': seq<Event>)
    requires i < |script| && script[i] == step
    requires down.Valid() && down.log == base + asked && Answered(env, script[..i], asked)
    modifies down
    ensures down.Valid() && down.log == base + asked'
    ensures r.Ok? ==> Answered(env, script[..i + 1], asked')
    ensures r.Err? ==> Replays(env, script, message, asked') && FinalReply(asked').None?
    ensures r.Err? && down.Delivered() ==> HeardOut(asked', r)
  {
    hide Faithful, Remaining, Rendered, Taken, Size;
    ghost var rest := script[i..];
    assert script[..i] + rest == script && rest[0] == step;
    var ok := down.SendLine(env.utf8(step.line));
    ghost var sent := Sent(env.utf8(step.line));
    asked' := asked + [sent];
    if !ok {
      ReplayContinues(env, script[..i], rest, message, asked, [sent]);
      return Err(down.writeError), asked';
    }
    r := down.HearReply();
    ghost var answer := HeardReply(r);
    asked' := asked + [sent, answer];
    if r.Ok? && r.value.code == step.code {
      AnsweredAppend(env, script[..i], asked, step, sent, answer);
      assert script[..i] + [step] == script[..i + 1];
    } else {
      ReplayContinues(env, script[..i], rest, message, asked, [sent, answer]);
      r := if r.Ok? then Err(OtherError) else r;
    }
  }

  /** Sends the script as far as it is answered, and the message behind all of it. */
  method Deliver(env: Env, down: Wire, envelope: Envelope, raw: seq<byte>)
    returns (r: Result<Reply, IoError>, ghost asked: seq<Event>)
    requires down.Valid()
    modifies down
    ensures down.Valid() && down.log == old(down.log) + asked
    ensures Replays(env, Script(envelope.Contents()), raw, asked)
    ensures FinalReply(asked) == if r.Ok? then Some(r.value) else None
    ensures down.Delivered() ==> HeardOut(asked, r)
  {
    hide Faithful, Remaining, Rendered, Taken, Size, Script, Answered, Replays, FinalReply, HeardOut;
    ghost var base := down.log;
    ghost var held := envelope.Contents();
    ghost var script := Script(held);
    ScriptShape(held);
    asked := [];
    NothingAsked(env, script);
    for i := 0 to |envelope.xforward|
      invariant down.Valid() && down.log == base + asked
      invariant Answered(env, script[..i], asked)
    {
      r, asked := Exchange(env, down, Step(envelope.xforward[i], 250), script, i, raw, base, asked);
      if r.Err? { return; }
    }
    ghost var n := |envelope.xforward|;
    r, asked := Exchange(env, down, Step("MAIL FROM:<" + envelope.mailFrom.GetOr("") + ">", 250),
                         script, n, raw, base, asked);
    if r.Err? { return; }
    for i := 0 to |envelope.recipients|
      invariant down.Valid() && down.log == base + asked
      invariant Answered(env, script[..n + 1 + i], asked)
    {
      r, asked := Exchange(env, down, Step("RCPT TO:<" + envelope.recipients[i] + ">", 250),
                           script, n + 1 + i, raw, base, asked);
      if r.Err? { return; }
    }
    r, asked := Exchange(env, down, Step("DATA", 354), script, |script| - 1, raw, base, asked);
    if r.Err? { return; }
    r, asked := Payload(env, down, raw, script, base, asked);
  }

  lemma NothingAsked(env: Env, script: seq<Step>)
    ensures Answered(env, script[..0], [])
  {
  }

  // The message itself, once the whole script is answered.
  method Payload(env: Env, down: Wire, raw: seq<byte>,
                 ghost script: seq<Step>, ghost base: seq<Event>, ghost asked: seq<Event>)
    returns (r: Result<Reply, IoError>, ghost asked': seq<Event>)
    requires down.Valid() && down.log == base + asked && Answered(env, script[..|script|], asked)
    modifies down
    ensures down.Valid() && down.log == base + asked'
    ensures Replays(env, script, raw, asked')
    ensures FinalReply(asked') == if r.Ok? then Some(r.value) else None
    ensures down.Delivered() ==> HeardOut(asked', r)
  {
    hide Faithful, Remaining, Rendered, Taken, Size;
    assert script[..|script|] == script == script + [];
    var ok := down.SendPayload(raw);
    asked' := asked + [SentMessage(raw)];
    if !ok {
      ReplayContinues(env, script, [], raw, asked, [SentMessage(raw)]);
      AnsweredEnd(env, script, asked);
      return Err(down.writeError), asked';
    }
    r := down.HearReply();
    asked' := asked + [SentMessage(raw), HeardReply(r)];
    ReplayContinues(env, script, [], raw, asked, [SentMessage(raw), HeardReply(r)]);
  }

  class Session {
    const env: Env
    const up: Wire
    const queue: Wire
    const envelope: Envelope
    /** The queue's wire, until it is closed. */
    var down: Wire?
    /** How many turns there have been, as the limiter counts its answers. */
    var count: nat
    ghost const upHello: seq<Event>
    ghost const queueHello: seq<Event>
    ghost var turns: seq<Turn>

    constructor (env: Env, up: Wire, queue: Wire)
      requires up != queue && up.Valid() && queue.Valid()
      ensures fresh(envelope) && Ready() && turns == []
      ensures this.env == env && this.up == up && this.queue == queue
      ensures upHello == up.log && queueHello == queue.log
    {
      this.env, this.up, this.queue, this.down := env, up, queue, queue;
      upHello, queueHello, turns, count := up.log, queue.log, [], 0;
      envelope := new Envelope();
    }

    /** Everything on the two wires since the greeting is a legal run, turn by turn. */
    ghost predicate Valid()
      reads this, up, queue
    {
      && up != queue && up.Valid() && queue.Valid()
      && (down != null ==> down == queue) && (down != null <==> NeverClosed(env, turns))
      && LegalRun(env, turns) && count == |turns|
      && up.log == upHello + ClientLog(turns)
      && queue.log == queueHello + QueueLog(turns)
    }

    /** Valid, and what the loop carries is what the run says it is. */
    ghost predicate Ready()
      reads this, up, queue, envelope
    {
      && Valid()
      && After(env, turns) == Phase(envelope.Contents(), down != null)
    }

    /** When every write was taken, no turn so far was cut short, and the session goes on as it says. */
    ghost predicate Flowing(going: bool)
      reads this, up, queue
    {
      up.Delivered() && queue.Delivered() ==> Uncut(env, turns, going)
    }

    // Relay a command, or the greeting, to the queue and its answer back.
    method Ask(text: string, greeting: bool) returns (go: bool, ghost said: seq<Event>, ghost asked: seq<Event>)
      requires up != queue && up.Valid() && queue.Valid() && (down != null ==> down == queue)
      requires greeting <==> Verb(text) in {"EHLO", "HELO"}
      modifies up, queue
      ensures up.Valid() && queue.Valid()
      ensures up.log == old(up.log) + said && queue.log == old(queue.log) + asked
      ensures LegalAsk(env, down != null, text, said, asked)
      ensures up.Delivered() && queue.Delivered() ==>
        && (down != null ==> |asked| == 2)
        && (go <==> down != null && !(|asked| > 1 && asked[1].HeardReply? && asked[1].reply.Err?))
      ensures Size(up.input) <= Size(old(up.input))
    {
      hide Faithful, Remaining, Rendered, Taken, Size;
      said, asked := [], [];
      if down == null {
        var _ := up.SendLine(env.utf8(GONE));
        return false, [Sent(env.utf8(GONE))], [];
      }
      var ok := down.SendLine(env.utf8(text));
      asked := [Sent(env.utf8(text))];
      if !ok { return false, said, asked; }
      var reply := down.HearReply();
      asked := asked + [HeardReply(reply)];
      if reply.Err? { return false, said, asked; }
      var bytes := if greeting && reply.value.code == 250
                   then env.utf8(Announce(env.lossy(reply.value.raw))) else reply.value.raw;
      go := up.SendBytes(bytes);
      said := [SentRaw(bytes)];
    }

    method CloseDownstream() returns (ghost asked: seq<Event>)
      requires queue.Valid() && (down != null ==> down == queue)
      modifies this`down, queue
      ensures down == null && queue.Valid() && queue.log == old(queue.log) + asked
      ensures asked == if old(down) != null then [Sent(env.utf8(CLOSE))] else []
    {
      asked := [];
      if down != null {
        var _ := down.SendLine(env.utf8(CLOSE));
        asked := [Sent(env.utf8(CLOSE))];
      }
      down := null;
    }

    // A message that was read to its end: refuse it, or hand it to the queue.
    method Handle(raw: seq<byte>) returns (go: bool, ghost said: seq<Event>, ghost asked: seq<Event>)
      requires up != queue && up.Valid() && queue.Valid() && (down != null ==> down == queue)
      modifies this`down, up, queue, envelope
      ensures up.Valid() && queue.Valid() && (down != null ==> down == queue)
      ensures up.log == old(up.log) + said && queue.log == old(queue.log) + asked
      ensures LegalMessage(env, Phase(old(envelope.Contents()), old(down) != null), raw, said, asked)
      ensures down != null ==> old(down) == down
      ensures down != null && InspectRaw(env, raw, Sender(old(envelope.Contents()))).Refuse? ==> asked == []
      ensures old(down) != null && down == null ==>
        InspectRaw(env, raw, Sender(old(envelope.Contents()))).Refuse? && asked != []
      ensures go ==>
        var p := Phase(old(envelope.Contents()), old(down) != null);
        Phase(envelope.Contents(), down != null) == AfterBody(env, p, Message(raw))
      ensures up.Delivered() && queue.Delivered() ==>
        var p := Phase(old(envelope.Contents()), old(down) != null);
        WholeMessage(env, p, raw, said, asked) && (go <==> !BodyStops(env, p, Message(raw), asked))
      ensures Size(up.input) <= Size(old(up.input))
    {
      hide Faithful, Remaining, Rendered, Taken, Size;
      said, asked := [], [];
      match InspectRaw(env, raw, envelope.mailFrom.GetOr(""))
      case Refuse(reply) =>
        var ok := up.SendLine(env.utf8(reply));
        said := [Sent(env.utf8(reply))];
        if !ok { return false, said, asked; }
        asked := CloseDownstream();
        envelope.Clear();
        go := true;
      case Accept(strip) =>
        if strip {
          envelope.mailFrom := Some("");
        }
        if down == null {
          var _ := up.SendLine(env.utf8(GONE));
          return false, [Sent(env.utf8(GONE))], asked;
        }
        var r;
        r, asked := Deliver(env, down, envelope, raw);
        if r.Ok? {
          go := up.SendBytes(r.value.raw);
          said := [SentRaw(r.value.raw)];
        } else if r.error == Disconnected {
          return false, said, asked;
        } else {
          go := up.SendLine(env.utf8(NO_QUEUE));
          said := [Sent(env.utf8(NO_QUEUE))];
        }
        envelope.Clear();
    }

    method Data() returns (go: bool, ghost said: seq<Event>, ghost asked: seq<Event>)
      requires up != queue && up.Valid() && queue.Valid() && (down != null ==> down == queue)
      modifies this`down, up, queue, envelope
      ensures up.Valid() && queue.Valid() && (down != null ==> down == queue)
      ensures up.log == old(up.log) + said && queue.log == old(queue.log) + asked
      ensures LegalData(env, Phase(old(envelope.Contents()), old(down) != null), said, asked)
      ensures down != null ==>
        old(down) == down && !RefusalCloses(env, Phase(old(envelope.Contents()), true), said, asked)
      ensures go ==>
        var p := Phase(old(envelope.Contents()), old(down) != null);
        Phase(envelope.Contents(), down != null) == AfterData(env, p, said)
      ensures old(down) != null && down == null ==>
        RefusalCloses(env, Phase(old(envelope.Contents()), true), said, asked)
      ensures up.Delivered() && queue.Delivered() ==>
        var p := Phase(old(envelope.Contents()), old(down) != null);
        if Collects(p) then
          && |said| > 1 && said[1].HeardMessage?
          && (said[1].body.Message? ==> WholeMessage(env, p, said[1].body.bytes, said[2..], asked))
          && (go <==> !BodyStops(env, p, said[1].body, asked))
        else go
      ensures Size(up.input) <= Size(old(up.input))
    {
      hide Faithful, Remaining, Rendered, Taken, Size, LegalBody, AfterBody, WholeMessage, BodyStops;
      said, asked := [], [];
      if envelope.mailFrom.None? || envelope.recipients == [] {
        var line := env.utf8(NEED_RCPT);
        go := up.SendLine(line);
        return go, [Sent(line)], asked;
      }
      var line := env.utf8(GO_AHEAD);
      go := up.SendLine(line);
      said := [Sent(line)];
      if !go { return; }
      var body := up.HearMessage();
      ghost var more;
      go, more, asked := Receive(body);
      said := [Sent(line), HeardMessage(body)] + more;
      assert said[2..] == more;
    }

    // The four ways in which reading a message can end.
    method Receive(body: Body) returns (go: bool, ghost said: seq<Event>, ghost asked: seq<Event>)
      requires up != queue && up.Valid() && queue.Valid() && (down != null ==> down == queue)
      modifies this`down, up, queue, envelope
      ensures up.Valid() && queue.Valid() && (down != null ==> down == queue)
      ensures up.log == old(up.log) + said && queue.log == old(queue.log) + asked
      ensures LegalBody(env, Phase(old(envelope.Contents()), old(down) != null), body, said, asked)
      ensures down != null ==> old(down) == down
      ensures down != null && body.Message? ==>
        InspectRaw(env, body.bytes, Sender(old(envelope.Contents()))).Refuse? ==> asked == []
      ensures go ==>
        var p := Phase(old(envelope.Contents()), old(down) != null);
        && (body.Message? || body.TooLarge?)
        && Phase(envelope.Contents(), down != null) == AfterBody(env, p, body)
      ensures old(down) != null && down == null ==>
        body.Message? && InspectRaw(env, body.bytes, Sender(old(envelope.Contents()))).Refuse? && asked != []
      ensures up.Delivered() && queue.Delivered() ==>
        var p := Phase(old(envelope.Contents()), old(down) != null);
        && (body.Message? ==> WholeMessage(env, p, body.bytes, said, asked))
        && (go <==> !BodyStops(env, p, body, asked))
      ensures Size(up.input) <= Size(old(up.input))
    {
      hide Faithful, Remaining, Rendered, Taken, Size, LegalMessage, InspectRaw, WholeMessage;
      match body
      case Eof => return false, [], [];
      case Broken(_) => return false, [], [];
      case TooLarge =>
        var line := env.utf8(OVERSIZE);
        go := up.SendLine(line);
        said, asked := [Sent(line)], [];
        envelope.Clear();
      case Message(raw) =>
        go, said, asked := Handle(raw);
    }

    method Obey(text: string) returns (go: bool, ghost said: seq<Event>, ghost asked: seq<Event>)
      requires up != queue && up.Valid() && queue.Valid() && (down != null ==> down == queue)
      modifies this`down, up, queue, envelope
      ensures up.Valid() && queue.Valid() && (down != null ==> down == queue)
      ensures up.log == old(up.log) + said && queue.log == old(queue.log) + asked
      ensures LegalCommand(env, count, Phase(old(envelope.Contents()), old(down) != null), text, said, asked)
      ensures down != null ==>
        old(down) == down && !CommandCloses(env, Phase(old(envelope.Contents()), true), text, said, asked)
      ensures go ==>
        var p := Phase(old(envelope.Contents()), old(down) != null);
        Phase(envelope.Contents(), down != null) == AfterCommand(env, count, p, text, said)
      ensures old(down) != null && down == null ==>
        CommandCloses(env, Phase(old(envelope.Contents()), true), text, said, asked)
      ensures up.Delivered() && queue.Delivered() ==>
        var p := Phase(old(envelope.Contents()), old(down) != null);
        && WholeCommand(env, p, text, said, asked)
        && (go <==> !CommandStops(env, p, text, said, asked))
      ensures Size(up.input) <= Size(old(up.input))
    {
      hide Faithful, Remaining, Rendered, Taken, Size, LegalData, LegalAsk, AfterData, AddressOf, WholeMessage,
        BodyStops;
      said, asked := [], [];
      var line;
      match Verb(text)
      case "XFORWARD" =>
        envelope.xforward := envelope.xforward + [text];
        line := env.utf8(OK);
        go := up.SendLine(line);
        said := [Sent(line)];
      case "MAIL" =>
        var sender := AddressOf(text);
        if env.mode == Outgoing && sender != "" && !env.admits(count, AsciiLower(sender)) {
          line := env.utf8(SLOW_DOWN);
          go := up.SendLine(line);
          return go, [Sent(line)], asked;
        }
        envelope.mailFrom, envelope.recipients := Some(sender), [];
        line := env.utf8(SENDER_OK);
        go := up.SendLine(line);
        said := [Sent(line)];
      case "RCPT" =>
        if envelope.mailFrom.None? {
          line := env.utf8(NEED_MAIL);
          go := up.SendLine(line);
          return go, [Sent(line)], asked;
        }
        envelope.recipients := envelope.recipients + [AddressOf(text)];
        line := env.utf8(RECIPIENT_OK);
        go := up.SendLine(line);
        said := [Sent(line)];
      case "DATA" =>
        go, said, asked := Data();
      case "RSET" =>
        envelope.Clear();
        line := env.utf8(OK);
        go := up.SendLine(line);
        said := [Sent(line)];
      case "QUIT" =>
        asked := CloseDownstream();
        line := env.utf8(BYE);
        var _ := up.SendLine(line);
        return false, [Sent(line)], asked;
      case _ =>
        go, said, asked := Ask(text, Verb(text) in {"EHLO", "HELO"});
    }

    // One pass of the command loop.
    method NextTurn() returns (go: bool)
      requires Ready() && Flowing(true)
      modifies this`down, this`count, this`turns, up, queue, envelope
      ensures Valid() && Flowing(go) && (go ==> Ready())
      ensures go ==> Size(up.input) < Size(old(up.input))
    {
      hide Faithful, Remaining, Rendered, Taken, Size, LegalRun, LegalCommand, AfterCommand, After, ClientLog, QueueLog,
        CommandCloses, NeverClosed, WholeCommand, CommandStops, Uncut;
      ghost var p := Phase(envelope.Contents(), down != null);
      ghost var before, upLog, queueLog := turns, up.log, queue.log;
      var line := up.HearLine();
      ghost var t: Turn;
      if line.Failed? || line.bytes == [] {
        t := Turn([Heard(line)], []);
        count := count + 1;
        Record(p, t);
        go := false;
      } else {
        var trimmed := TrimEol(line.bytes);
        var text := env.lossy(trimmed);
        ghost var said, asked;
        go, said, asked := Obey(text);
        t := Turn([Heard(line)] + said, asked);
        assert t.client[1..] == said;
        count := count + 1;
        Record(p, t);
      }
      EventsAssociate(upHello, ClientLog(before), t.client);
      EventsAssociate(queueHello, QueueLog(before), t.queue);
      RenderedGrows(upLog, t.client);
      RenderedGrows(queueLog, t.queue);
      if up.Delivered() && queue.Delivered() {
        UncutExtends(env, before, t, go);
      }
    }

    // Enter a turn that has happened on the wires into the run.
    ghost method Record(p: Phase, t: Turn)
      requires up != queue && up.Valid() && queue.Valid() && (down != null ==> down == queue)
      requires LegalRun(env, turns) && p == After(env, turns) && count == |turns| + 1
      requires LegalTurn(env, |turns|, p, t)
      requires down != null <==> NeverClosed(env, turns) && !Closes(env, p, t)
      requires up.log == upHello + ClientLog(turns) + t.client
      requires queue.log == queueHello + QueueLog(turns) + t.queue
      modifies this`turns
      ensures Valid() && turns == old(turns) + [t]
      ensures After(env, turns) == NextPhase(env, count - 1, p, t)
    {
      hide Faithful, Remaining, Rendered, Taken, Size, LegalRun, LegalTurn, NextPhase, After, ClientLog, QueueLog,
        Closes;
      assert (turns + [t])[..|turns|] == turns;
      RunExtends(env, turns, t);
      EventsAssociate(upHello, ClientLog(turns), t.client);
      EventsAssociate(queueHello, QueueLog(turns), t.queue);
      turns := turns + [t];
    }

    /** The command loop. */
    method Converse()
      requires Ready() && turns == []
      modifies this`down, this`count, this`turns, up, queue, envelope
      ensures Valid() && Flowing(false)
    {
      hide Faithful, Remaining, Rendered, Taken, Size, LegalRun, After, ClientLog, QueueLog, NeverClosed, WholeTurn,
        TurnStops;
      var go := true;
      while go
        invariant Valid() && Flowing(go) && (go ==> Ready())
        decreases go, Size(up.input)
      {
        go := NextTurn();
      }
    }
  }

  lemma EventsAssociate(a: seq<Event>, b: seq<Event>, c: seq<Event>)
    ensures a + b + c == a + (b + c)
  {
  }

  const READY := "220 noombat-filtermail ready"

  /** What one whole session did: a legal run behind the queue's greeting, and the queue closed once. */
  ghost predicate Served(env: Env, up: seq<Event>, queue: seq<Event>, turns: seq<Turn>, closing: seq<Event>) {
    && LegalRun(env, turns)
    && closing == (if NeverClosed(env, turns) then [Sent(env.utf8("QUIT"))] else [])
    && |queue| > 0 && AnsweredWith(queue[0], 220)
    && queue == queue[..1] + QueueLog(turns) + closing
    && up == [Sent(env.utf8("220 noombat-filtermail ready"))] + ClientLog(turns)
  }

  const UNREACHABLE := "421 4.3.2 the filter cannot reach the queue"
  const UNGREETED := "421 4.3.2 the queue did not answer"

  /** Serve one client over fresh wires, with the queue's wire absent when it cannot be reached. */
  method Serve(env: Env, up: Wire, queue: Wire?)
    returns (started: bool, ghost turns: seq<Turn>, ghost closing: seq<Event>)
    requires up.Valid() && up.log == []
    requires queue != null ==> queue != up && queue.Valid() && queue.log == []
    modifies up, queue
    ensures up.Valid() && (queue != null ==> queue.Valid())
    ensures started ==> queue != null && Served(env, up.log, queue.log, turns, closing)
    ensures started && up.Delivered() && queue.Delivered() ==> Uncut(env, turns, false)
    ensures !started && queue == null ==> up.log == [Sent(env.utf8("421 4.3.2 the filter cannot reach the queue"))]
    ensures !started && queue != null ==>
      && |queue.log| == 1 && queue.log[0].HeardReply?
      && up.log == [Sent(env.utf8(if AnsweredWith(queue.log[0], 220) then "220 noombat-filtermail ready"
                                  else "421 4.3.2 the queue did not answer"))]
      && (AnsweredWith(queue.log[0], 220) ==> !up.Delivered())
  {
    hide Faithful, Remaining, Rendered, Taken, Size, LegalRun, After, ClientLog, QueueLog, NeverClosed, Uncut;
    started, turns, closing := false, [], [];
    if queue == null {
      var _ := up.SendLine(env.utf8(UNREACHABLE));
      return;
    }
    var greeting := queue.HearReply();
    if greeting.Err? || greeting.value.code != 220 {
      var _ := up.SendLine(env.utf8(UNGREETED));
      return;
    }
    var ok := up.SendLine(env.utf8(READY));
    if !ok { return; }
    var session := new Session(env, up, queue);
    session.Converse();
    turns, started := session.turns, true;
    assert queue.log == queue.log[..1] + QueueLog(turns);
    ghost var queueLog := queue.log;
    if session.down != null {
      closing := session.CloseDownstream();
    }
    RenderedGrows(queueLog, closing);
    assert queueLog + closing == queue.log;
  }
}
