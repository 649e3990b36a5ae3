# Noombat, modelled

Noombat is a federated professional network written in Rust. This project models the parts of it that
have to be right whatever the network does, and proves what they promise: the SMTP proxy that lets only
encrypted mail through, the durable queues and what is built on them, FEP-8b32 integrity proofs, account
erasure, the privacy-filtering actor document, and some small dense transformations. It stands alone:
`dafny verify dfyconfig.toml` checks all of it.

Code that changes things step by step is a class or a loop here too, proved against a function that says
what it does to the state; what the source promises is then proved of that function, or of every run of
its steps.

**The SMTP proxy.** `Lines` is the capped line reader over a stream cut into buffers at will, with
interruptions and faults. `Messages` is dot-stuffing and its inverse under the size limits. `Wires` is
one end of a conversation, whose log is tied to the bytes that went in and out. `Greeting` is the
announcement of capabilities, `Commands` reads a client's line, and `Inspection` makes the content checks
over a parsed MIME tree. `Dialogue` says which turns are legal and when one is whole; `Session` is the
command loop, the replay and the whole session, which are shown to take only legal turns, and to cut
none short while writes succeed; `SessionSafety` draws the consequences over whole sessions: no message
without its inspection and exactly the envelope the client's lines name, none held back that passed,
each command's answer read off the history, and nothing but the closing line after a refusal.
`RateLimiter` is the GCRA limiter with its pruned map, and `SessionCap` the shared session counter under
every interleaving.

**The queues.** `SearchQueue` is the search-index queue, its worker and the durable removal; `SearchRuns`
proves what every run keeps and what it refines, and `SearchTimes` when each attempt comes. `Delivery` is
the outbound queue with its claim lease, and `DeliveryTimes` says when each row may be claimed.
`ChatmailOps` is the record of mailbox deletions and its worker. `Erasure` is one account's erasure, the
sweep and the retention of tombstoned rows, and `ErasureSafety` what they guarantee, over the search
queue's runs. `Backfill` is the sanitiser sweep.

**Documents and text.** `IntegrityProof` signs and verifies JSON documents; canonicalisation, hashing,
signatures and encodings are parameters with the hypotheses `Correct` and `Binding`. `FederatedActor` is
the document of a local actor. `FixedWindow` is the Redis limiter, `FoldHeader` header folding, `Glob` the
compiler from path globs to regular expressions, with a parser and a meaning for the expressions it
produces. `Arithmetic`, `Jsons`, `Texts` and `Wrappers` are shared.

## What turned out otherwise

Each of these is a lemma here, with the exact condition where there is one.

- The address of a `MAIL` or `RCPT` line is called best effort on which nothing depends
  (crates/noombat-chatmail-admin/src/filtermail.rs:898-899). The replayed envelope, the From comparison and
  the limiter's key do depend on it, and with a bracket closed behind the address it is not the address
  (`AddressInBrackets`): `MAIL FROM:<a@b> AUTH=<>` names `a@b> AUTH=<` (`ParameterTaken`).
- The line cap is looked at only between buffers. A line up to the cap is always delivered, a longer one
  only under some bufferings (`EveryChunkingDeliversIff`, crates/noombat-chatmail-admin/src/filtermail.rs:858).
- The session cap can be exceeded by one for every further accept loop (`CapIsSharp`).
- The worker of the search queue reads its batch before it calls the backend. A removal queued in between
  is marked succeeded with the document in the index (`StaleUpsertOutlivesRemoval`). `StaleMarkAgreesIff`
  says exactly when such a row still agrees with the index, whatever enqueues and durable removals of the
  document come between read, call and mark. A removal whose record could not be written breaks the
  agreement for a settled upsert (`UnrecordedRemovalAgreesIff`), and a failed call of the stale row gives up
  on a removal that was never tried (`StaleFailureGivesUpIff`).
- Local documents are written to the index directly, in the background. A write that was under way when its
  account was erased stays in the index with nothing owed if and only if the removal had been carried out and
  marked done by then (`LateWriteAfterErasureIff`, `LateWriteHarmlessIff`).
- The backoff of the search and mailbox queues never reaches its cap of an hour (`BackoffDoubles`), nor
  that of deliveries its seven days (`DelayRange`).
- An erasure whose flag could not be cleared after the tombstone is called survivable
  (crates/noombat-api/src/erasure.rs:119-122). The retry finds no followers, posts or postings any more: it
  completes the erasure if and only if the tombstone was what failed, or there was no follower and no post
  or posting still in the index (`RetryCompletesIff`). If the process stops after the flag is cleared the
  account is not even due again (`StopLosesTheRest`), and erasing it a second time drops what the first
  time queued (`SecondErasureDropsDeletes`).
- A delivery that is claimed and never written back is tried again without limit; ten bounds the failures
  that are recorded (`LostTriesHaveNoLimit`, `TriesBounded`).
- Mailbox deletions are recorded once for an address, for ever. If an address is given out again, the
  second holder's mailbox is not deleted (`ErasureReachesMailboxIff`, `SettledAddressKeepsItsMailbox`).
- Signing turns a JSON null into an object and panics on any other value that is not one, so the error
  the code has for that case is never returned (`SignableIff`, crates/noombat-federation/src/integrity_proof.rs:92-99).
- A context that is just the Data Integrity URI ends up holding it twice (`ContextDoubledIff`).
- With the profile withheld, whether there is any ORCID, visible chat address, link or section can
  still show in the document's context (`OnlyShowablePartShows`), and a custom section named `ttl` replaces the
  lifetime hint (`TtlKeptIff`).
- The fixed window admits up to 2 * limit - 1 requests in a span of its own length (`SpanBoundIsSharp`), and
  its `Retry-After`, of at least one second, is too short if and only if a second or more is left and the
  seconds left were rounded down (`RetryAfterSufficesIff`).
- A folded header gains a space at every fold for a reader that unfolds as RFC 5322 says
  (`StandardReaderSeesValueIff`), and folding panics on a value with a character across a fold (`FoldsIff`).

## Model

| member | source | states |
|---|---|---|
| `Lines.ReadLineIsFirstLine` | crates/noombat-chatmail-admin/src/filtermail.rs:858-888 | On a stream without faults, buffered in any way, the capped reader returns the bytes up to the first line feed and leaves exactly the rest, for every line within the cap. |
| `Lines.EveryChunkingDeliversIff` | crates/noombat-chatmail-admin/src/filtermail.rs:858-888 | A first line is delivered under every buffering of its stream if and only if it has at most `cap` bytes before its line feed. |
| `Lines.UnluckyChunking` | crates/noombat-chatmail-admin/src/filtermail.rs:873-884 | For every longer line there is a buffering that trips the cap. |
| `Lines.ReadLineConserves` | crates/noombat-chatmail-admin/src/filtermail.rs:858-888 | A read that returns a line loses and repeats no byte, faults between buffers included, and overshoots the cap by at most one buffer. |
| `Lines.ReadAllSplits` | crates/noombat-chatmail-admin/src/filtermail.rs:858-888 | Successive reads return the newline-delimited pieces of the stream, whatever the buffers. |
| `Lines.TrimmedUnique` | crates/noombat-chatmail-admin/src/filtermail.rs:890-896 | Trimming removes the whole run of CR and LF at the end, and no other cut of the line does. |
| `Lines.TrimEol` | crates/noombat-chatmail-admin/src/filtermail.rs:890-896 | The trimming loop computes that. |
| `Messages.RoundTrip` | crates/noombat-chatmail-admin/src/filtermail.rs:343-354 | Reading a stuffed message back from any buffering of the wire, with anything behind it, yields the message with its line ends normalised, or that it is too large past 64 MiB, and leaves exactly what was behind it. |
| `Messages.LoneDotOnlyAtEnd` | crates/noombat-chatmail-admin/src/filtermail.rs:343-354 | On the wire a line holding a lone dot is the last one and no other. |
| `Messages.StuffedLinesAre` | crates/noombat-chatmail-admin/src/filtermail.rs:343-354 | Line for line the wire holds what stands before the line's end, behind one more dot when it begins with one, and CRLF; and last a lone dot. |
| `Messages.NormalisedLines` | crates/noombat-chatmail-admin/src/filtermail.rs:807-851 | Normalising keeps every line up to its end and ends it with CRLF. |
| `Messages.TooLongAborts` | crates/noombat-chatmail-admin/src/filtermail.rs:807-851 | A payload past 256 MiB ends the session, for every buffering. |
| `Messages.NormalisedIsNormal` | crates/noombat-chatmail-admin/src/filtermail.rs:807-851 | Normalising line ends is idempotent. |
| `Messages.ReadBodyIsNormal` | crates/noombat-chatmail-admin/src/filtermail.rs:807-851 | Whatever a client sends, a body the reader produced is its own normal form. |
| `Wires.Stuff` | crates/noombat-chatmail-admin/src/filtermail.rs:343-354 | The sending loop writes the dot-stuffed payload and its terminator. |
| `Wires.Wire.ReadLineCapped` | crates/noombat-chatmail-admin/src/filtermail.rs:858-888 | The reading loop is the specified reader, buffer by buffer. |
| `Wires.Wire.ReadMessage` | crates/noombat-chatmail-admin/src/filtermail.rs:807-851 | The loop that reads a message is the specified one, with both size limits, for every stream. |
| `Wires.Wire.HearReply` | crates/noombat-chatmail-admin/src/filtermail.rs:306-328 | A multi-line reply is read to the line that ends it and kept byte for byte. |
| `Wires.ReplyIsRead` | crates/noombat-chatmail-admin/src/filtermail.rs:306-328 | Whatever the buffering, a reply is every line up to the first that does not mark a continuation, with that line's code, and what is behind it is left. |
| `Wires.CodeIs` | crates/noombat-chatmail-admin/src/filtermail.rs:320-324 | The code is the number the first three columns spell, a plus sign in front of two digits allowed, and 0 when they spell none. |
| `Wires.SentLineReadsBack` | crates/noombat-chatmail-admin/src/filtermail.rs:330-336 | A line that is sent is ended by CRLF, and a reader has it back. |
| `Wires.Wire.SendPayload` | crates/noombat-chatmail-admin/src/filtermail.rs:343-354 | What is written of a message is its stuffed form, up to where a write failed. |
| `Greeting.AnnouncesRelayable` | crates/noombat-chatmail-admin/src/filtermail.rs:363-374 | A client that reads the announcement finds exactly the relayable ones of the capabilities in the queue's reply, in their order. |
| `Greeting.AnnounceSettles` | crates/noombat-chatmail-admin/src/filtermail.rs:769-803 | Announcing an announcement gives it back. |
| `Greeting.RelayableIs` | crates/noombat-chatmail-admin/src/filtermail.rs:769-790 | A capability is kept if and only if its first word, whatever the case, is one of the six. |
| `Greeting.RelayedIs` | crates/noombat-chatmail-admin/src/filtermail.rs:779-790 | Of every capability as many are kept as were offered, or none. |
| `Greeting.AnnouncementLines` | crates/noombat-chatmail-admin/src/filtermail.rs:792-803 | Line for line the announcement is the proxy's name and the capabilities kept, with the code 250 and a hyphen but for the last. |
| `Greeting.OffersLines` | crates/noombat-chatmail-admin/src/filtermail.rs:366-374 | A reply's first line offers nothing. |
| `Greeting.OtherTextLine` | crates/noombat-chatmail-admin/src/filtermail.rs:367-369 | Lines may end in a line feed without a carriage return, and the last in nothing. |
| `Texts.AsciiLowerIs` | crates/noombat-chatmail-admin/src/filtermail.rs:660-666 | Lower case moves the letters from A to Z and leaves everything else. |
| `Greeting.CapabilityIs` | crates/noombat-chatmail-admin/src/filtermail.rs:366-374 | A line offers what stands behind its first four bytes, if there is anything and no character lies across the cut. |
| `Commands.AddressOfIs` | crates/noombat-chatmail-admin/src/filtermail.rs:900-908 | Every line names exactly one address, what its outermost angle brackets hold, else what follows its first colon without the whitespace around it, else nothing; and that one is extracted. |
| `Commands.AddressInBrackets` | crates/noombat-chatmail-admin/src/filtermail.rs:900-908 | An address in angle brackets is extracted if and only if no bracket is closed behind it. |
| `Commands.ParameterTaken` | crates/noombat-chatmail-admin/src/filtermail.rs:900-908 | A parameter with brackets of its own is taken for part of the address. |
| `Commands.ReplayedNamesSame` | crates/noombat-chatmail-admin/src/filtermail.rs:608-617 | The line that replays a sender or a recipient names it again, whatever it is. |
| `Commands.VerbIs` | crates/noombat-chatmail-admin/src/filtermail.rs:465-471 | The dispatch is on the line's first word in capitals. |
| `Inspection.EncryptedIffSomePart` | crates/noombat-chatmail-admin/src/filtermail.rs:930-967 | A message counts as encrypted if and only if some part of it, at any depth, is. |
| `Inspection.EncryptedHereIs` | crates/noombat-chatmail-admin/src/filtermail.rs:916-957 | A part itself is encrypted if and only if its content type says PGP/MIME or an Autocrypt setup message, or its body has both armour markers at the start of a line. |
| `Inspection.InspectIs` | crates/noombat-chatmail-admin/src/filtermail.rs:642-706 | Exactly when a message is accepted and with its sender stripped or not, and exactly when it is refused and with which of the three replies, said of its headers and parts. |
| `Inspection.HeaderAddressIs` | crates/noombat-chatmail-admin/src/filtermail.rs:709-721 | The address of a header is what the angle brackets of the first header of that name hold, else all of it, trimmed and in lower case. |
| `Inspection.DomainIs` | crates/noombat-chatmail-admin/src/filtermail.rs:723-728 | The domain is what follows the last @, trimmed and in lower case. |
| `Inspection.ClaimsIs` | crates/noombat-chatmail-admin/src/filtermail.rs:731-741 | The signing domain is what the first of the signature's tags, cut at the semicolons, assigns to d. |
| `Inspection.AcceptedMessage` | crates/noombat-chatmail-admin/src/filtermail.rs:642-706 | An accepted message has an encrypted part, and the sender it goes on under is empty, or agrees with its From header, or the message has no From address; outgoing senders are never changed. |
| `Session.Envelope.Clear` | crates/noombat-chatmail-admin/src/filtermail.rs:397-403 | Clearing leaves nothing held. |
| `Session.Exchange` | crates/noombat-chatmail-admin/src/filtermail.rs:623-632 | A line of the script is followed by the next only when it was answered with its code. |
| `Session.Deliver` | crates/noombat-chatmail-admin/src/filtermail.rs:603-621 | The replay is as much of the script as was answered, then the message once and only when all of it was; the result is the queue's final reply. |
| `Session.Session.CloseDownstream` | crates/noombat-chatmail-admin/src/filtermail.rs:754-758 | Closing sends QUIT once and forgets the wire. |
| `Session.Session.Handle` | crates/noombat-chatmail-admin/src/filtermail.rs:535-574 | A message read to its end is refused and the queue closed, or delivered under the sender the verdict leaves. |
| `Session.Session.Data` | crates/noombat-chatmail-admin/src/filtermail.rs:518-574 | DATA is answered or collected as the held envelope allows, and a message read to its end clears the envelope. |
| `Session.Session.Obey` | crates/noombat-chatmail-admin/src/filtermail.rs:473-599 | Every command's events on both wires, and the envelope after it, are the specified ones, in every branch. |
| `Session.Session.Converse` | crates/noombat-chatmail-admin/src/filtermail.rs:452-600 | The whole loop yields a legal run of turns, and both wires' logs are exactly that run, whatever either peer sends. |
| `Session.Serve` | crates/noombat-chatmail-admin/src/filtermail.rs:405-450 | A session starts only behind a 220 from the queue, and closes its wire exactly once; with all writes taken no turn is cut short and the loop goes on as long as it must. |
| `SessionSafety.EnvelopeFromHistory` | crates/noombat-chatmail-admin/src/filtermail.rs:468-520 | The held envelope is the history's: the XFORWARD lines since the last clear, the sender of the last MAIL that was accepted, and the recipients since it; a rate-limited MAIL leaves it in place. |
| `SessionSafety.CommandIs` | crates/noombat-chatmail-admin/src/filtermail.rs:461-464 | A command is the text of the line without its line end. |
| `SessionSafety.AnsweredFromHistory` | crates/noombat-chatmail-admin/src/filtermail.rs:486-588 | Each command answered by the proxy gets the reply that the history before it demands: MAIL by the quota, RCPT by a sender since the last clear, DATA by a recipient since that sender. |
| `SessionSafety.MessageAnswers` | crates/noombat-chatmail-admin/src/filtermail.rs:524-561 | An oversized message, a refused one, and one accepted when the queue is gone get one reply each, and the queue hears at most QUIT. |
| `SessionSafety.OthersRelayed` | crates/noombat-chatmail-admin/src/filtermail.rs:472-484 | Every other command goes to the queue and its reply comes back byte for byte, a greeting's as the announcement; without a queue there is one reply. |
| `SessionSafety.OpenFromHistory` | crates/noombat-chatmail-admin/src/filtermail.rs:754-758 | The queue's wire is open until QUIT or a refused message. |
| `SessionSafety.AcceptedMessageIsSent` | crates/noombat-chatmail-admin/src/filtermail.rs:562-621 | When all writes succeed, a message that passes inspection is sent to the open queue, unless a line of its envelope was answered otherwise than it must be. |
| `SessionSafety.EndsExactlyWhenFinal` | crates/noombat-chatmail-admin/src/filtermail.rs:452-600 | When all writes succeed, the session ends at the first turn whose stream ended or failed, that quit, or that needed a queue that is gone, and at no other. |
| `SessionSafety.MessageAfterScript` | crates/noombat-chatmail-admin/src/filtermail.rs:603-632 | In a replay the message comes last, after every line of the script was sent and answered. |
| `SessionSafety.MessageJustified` | crates/noombat-chatmail-admin/src/filtermail.rs:452-632 | A message sent to the queue in any legal run passed inspection under the sender that the last accepted MAIL names and was preceded, in that turn, by exactly its envelope: the XFORWARD lines, that sender, the addresses the RCPT lines name, DATA, each answered 250 and the last 354; a turn sends at most one. |
| `SessionSafety.EveryMessageJustified` | crates/noombat-chatmail-admin/src/filtermail.rs:405-632 | The same of every message on the queue's wire in every session. |
| `SessionSafety.NothingAfterRefusal` | crates/noombat-chatmail-admin/src/filtermail.rs:754-758 | From the first refusal on, the queue is sent QUIT, at most once, and nothing else. |
| `SessionSafety.OnlyRelayedCommands` | crates/noombat-chatmail-admin/src/filtermail.rs:589-599 | Outside a replay the queue hears QUIT or the client's own command, and none of the commands that are answered here. |
| `SessionSafety.ClientGetsQueuesAnswer` | crates/noombat-chatmail-admin/src/filtermail.rs:571-584 | The client is given the queue's answer to its message byte for byte, and no success without one. |
| `RateLimiter.LimitsFor` | crates/noombat-chatmail-admin/src/filtermail.rs:133-149 | The spacing is a minute divided by the rate, rounded down, and the burst is the configured one, each at least one. |
| `RateLimiter.Limiter.Allow` | crates/noombat-chatmail-admin/src/filtermail.rs:151-173 | One call prunes, decides and records as the plain step on the pruned map does. |
| `RateLimiter.PruningInvisible` | crates/noombat-chatmail-admin/src/filtermail.rs:151-173 | Over any nondecreasing calls the pruning limiter decides as one that never prunes. |
| `RateLimiter.SendersIndependent` | crates/noombat-chatmail-admin/src/filtermail.rs:151-173 | A sender's decisions depend on its own calls alone. |
| `RateLimiter.BucketBound` | crates/noombat-chatmail-admin/src/filtermail.rs:151-173 | From any state a bucket accepts between t0 and t1 at most burst + (t1 - t0) / interval sends. |
| `RateLimiter.RateBound` | crates/noombat-chatmail-admin/src/filtermail.rs:151-173 | That bound for one sender in any stretch of any nondecreasing run over any mix of senders. |
| `RateLimiter.MinuteBound` | crates/noombat-chatmail-admin/src/filtermail.rs:133-173 | In the configuration's own terms: in w minutes at most burst + w * rate sends of one sender, and what the rounded spacing lets slip when the rate does not divide a minute. |
| `RateLimiter.MapStaysSmall` | crates/noombat-chatmail-admin/src/filtermail.rs:158-160 | After a call the map holds at most ten thousand and one keys, or only keys whose time is yet to come and the caller's. |
| `RateLimiter.FreshBurst` | crates/noombat-chatmail-admin/src/filtermail.rs:133-173 | A fresh sender is admitted at one instant exactly max(burst, 1) times. |
| `RateLimiter.PacedNeverRefused` | crates/noombat-chatmail-admin/src/filtermail.rs:151-173 | A sender who keeps the interval is never refused. |
| `SessionCap.CapHolds` | crates/noombat-chatmail-admin/src/filtermail.rs:234-277 | In every interleaving of n accept loops and session ends the counter is the number of sessions running or being spawned, and is at most the cap plus n - 1. |
| `SessionCap.CapIsSharp` | crates/noombat-chatmail-admin/src/filtermail.rs:254-266 | That overshoot is reached for every n. |
| `SearchQueue.BackoffDoubles` | crates/noombat-api/src/search_ops.rs:39-46 | The delay doubles from thirty seconds and stops at 1920, for any stored count. |
| `SearchQueue.Queue.EnqueueRemoval` | crates/noombat-federation/src/search_queue.rs:22-40 | A removal takes the row over, resets it and drops its document. |
| `SearchQueue.Queue.EnqueueUpsert` | crates/noombat-federation/src/search_queue.rs:48-73 | An upsert resets an upsert's row and leaves a removal's alone. |
| `SearchQueue.Queue.MarkFailed` | crates/noombat-api/src/search_ops.rs:179-210 | A failure counts, delays, and gives up at the eighth. |
| `SearchQueue.Drain` | crates/noombat-api/src/search_ops.rs:107-163 | A batch is drained as it was read: each row's call, its outcome written back by key, and the successes counted. |
| `SearchQueue.RemoveDurably` | crates/noombat-api/src/search_sync.rs:269-306 | Record, attempt, and clear the record if the attempt worked, with any of the three failing. |
| `SearchRuns.RemovalIsForGood` | crates/noombat-federation/src/search_queue.rs:48-73 | From any state and under every interleaving, halves of stale drains included, no key goes back from removal to upsert. |
| `SearchRuns.KeyStaysSound` | crates/noombat-api/src/search_ops.rs:107-210 | From any sound state, an index filled by other means included, with its own row drained whole and no direct write landing on it once it is settled, whatever stale halves of others do: a succeeded upsert has exactly its document in the index, a succeeded removal's is absent, and a row is given up on at exactly eight failures. |
| `SearchRuns.DrainIsRun` | crates/noombat-api/src/search_ops.rs:107-163 | Draining a batch that nothing disturbs is a run that drains each row whole. |
| `SearchRuns.RunIsSound` | crates/noombat-api/src/search_ops.rs:107-210 | The same of all rows at once, from an empty queue. |
| `SearchRuns.RunRefinesIntent` | crates/noombat-federation/src/search_queue.rs:22-73 | Every run, stale halves included, does to the map of intents exactly what its enqueues ask. |
| `SearchRuns.SettledRowsShowIntent` | crates/noombat-api/src/search_ops.rs:107-163 | A row marked succeeded, itself always drained whole, has the index showing what was last asked for it. |
| `SearchRuns.RemovalIsRun` | crates/noombat-api/src/search_sync.rs:269-306 | From any state a recorded durable removal is a run of the queue's steps, disciplined for every document. |
| `SearchRuns.RemovalHoldsToTheEnd` | crates/noombat-api/src/search_sync.rs:269-306 | From any sound state, once a removal is on record its document is gone or the work is owed for as long as the steps on that document are disciplined, with the drains of every other row as stale as they may be. |
| `SearchRuns.LateWriteHarmlessIff` | crates/noombat-api/src/search_sync.rs:82-86 | A direct write that lands after a removal was recorded leaves the document gone or owed if and only if the removal is not marked done, and for good if and only if, besides, no durable removal is about to mark it. |
| `SearchRuns.LateWriteOutlivesRemoval` | crates/noombat-api/src/search_sync.rs:82-86 | A run in which a write that was under way outlives a removal marked done. |
| `SearchRuns.StaleMarkAgreesIff` | crates/noombat-api/src/search_ops.rs:112-160 | With any enqueues and durable removals of the document, recorded or not, between read, call and mark, and anything at all of other documents: the row marked succeeded agrees with the index if and only if it was a removal, or nothing was deleted during the call, no removal was queued and the same document was asked for last, or it was deleted during the call and a removal was queued. |
| `SearchRuns.StaleFailureGivesUpIff` | crates/noombat-api/src/search_ops.rs:131-160 | A failed call's mark on a row read earlier counts against whatever the row asks for by then, and gives up on it if and only if the row that was read was at its last attempt. |
| `SearchRuns.StaleUpsertOutlivesRemoval` | crates/noombat-api/src/search_ops.rs:112-160 | A named run: a row is queued and read, a removal is queued, and the row drained as it was read ends succeeded with the document in the index. |
| `SearchRuns.UnrecordedRemovalAgreesIff` | crates/noombat-api/src/search_sync.rs:275-300 | A removal whose record failed and whose call worked keeps its row agreeing with the index if and only if the row was not a succeeded upsert. |
| `SearchRuns.RemovalsFirst` | crates/noombat-api/src/search_ops.rs:112-119 | While removals are due they fill a batch before any upsert does. |
| `SearchRuns.LongestDueFirst` | crates/noombat-api/src/search_ops.rs:112-119 | Within a kind no row is passed over for one that has been due for less long. |
| `SearchRuns.DrainCounts` | crates/noombat-api/src/search_ops.rs:130-163 | What a pass reports is the number of rows it settled, when every outcome was written. |
| `SearchRuns.PassProgress` | crates/noombat-api/src/search_ops.rs:107-163 | With a healthy backend a pass over a selected batch settles every row of it and disturbs no other. |
| `SearchRuns.HealthyPassesSettle` | crates/noombat-api/src/search_ops.rs:107-163 | Enough healthy passes leave no row pending and the index showing the intents. |
| `SearchTimes.FailureDefers` | crates/noombat-api/src/search_ops.rs:179-194 | A failure from n attempts is due again exactly 60 * 2^n seconds later up to the fifth, 1920 for the two after, and never again from the eighth. |
| `SearchTimes.EnqueueIsDue` | crates/noombat-federation/src/search_queue.rs:22-73 | What is queued is due at once. |
| `SearchTimes.MissingDocumentGivenUp` | crates/noombat-api/src/search_ops.rs:134-139 | An upsert without a document is given up on at once and the index left alone. |
| `SearchTimes.RowFollowsHistory` | crates/noombat-api/src/search_ops.rs:107-194 | Over whole runs a row is due exactly from its last marked failure plus that failure's wait, its attempts are the outcomes marked, and it is given up on exactly at the eighth failure since its last reset. |
| `SearchTimes.AttemptsTakeTheirTime` | crates/noombat-api/src/search_ops.rs:39-46 | No attempt comes sooner than 60 * (2^n - 1) seconds after the enqueue that reset the row, n being the failures since, or 5700 for the seventh. |
| `IntegrityProof.Activity.EnsureDataIntegrityContext` | crates/noombat-federation/src/integrity_proof.rs:569-599 | The context is extended in place; anything that is neither object nor null panics. |
| `IntegrityProof.Activity.SignWithConfig` | crates/noombat-federation/src/integrity_proof.rs:87-134 | Signing in place embeds the proof over the document without its old proof and with the document's context in the configuration. |
| `IntegrityProof.Activity.Sign` | crates/noombat-federation/src/integrity_proof.rs:60-77 | Signing is signing with the configuration the signer makes. |
| `IntegrityProof.SignableIff` | crates/noombat-federation/src/integrity_proof.rs:87-134 | Signing works on objects and on null, and panics on everything else. |
| `IntegrityProof.VerdictIs` | crates/noombat-federation/src/integrity_proof.rs:228-355 | A document is valid if and only if its selected proof is within a mebibyte, signed by the key over its configuration and the document, made for assertionMethod, not expired, and not dated more than five minutes ahead; it is unproven if and only if no proof is selected or only those claims fail. |
| `IntegrityProof.SignedCarries` | crates/noombat-federation/src/integrity_proof.rs:60-134 | The embedded proof has exactly its six fields with the method and time given, and nothing else of the document changes but its context. |
| `IntegrityProof.SignedIsValid` | crates/noombat-federation/src/integrity_proof.rs:228-355 | A signed document verifies under its key in either spelling, also with its proof in a set behind proofs of other suites, within the size bound and the clock's tolerance. |
| `IntegrityProof.ContextSettles` | crates/noombat-federation/src/integrity_proof.rs:569-599 | The context is extended by at most the one entry, once, and nothing else changes. |
| `IntegrityProof.ResigningReplaces` | crates/noombat-federation/src/integrity_proof.rs:60-134 | Signing a signed document is signing the original. |
| `IntegrityProof.TamperingIsInvalid` | crates/noombat-federation/src/integrity_proof.rs:228-355 | A document carrying the proof value of one that was valid, checked at any time: if it is that document with that effective configuration, within the size bound, it is valid or proves nothing as its claims say by then; otherwise it is invalid. |
| `IntegrityProof.ForeignSkipped` | crates/noombat-federation/src/integrity_proof.rs:379-391 | Entries of other suites before the first of this one do not matter. |
| `IntegrityProof.ContextDoubledIff` | crates/noombat-federation/src/integrity_proof.rs:569-599 | The Data Integrity context ends up twice if and only if it was there twice or was the whole of a single-string context. |
| `Delivery.Queue.ClaimBatch` | crates/noombat-federation/src/delivery.rs:83-114 | Claiming pushes the next retry of every row of the batch an hour on, and of no other. |
| `Delivery.ClaimIsRun` | crates/noombat-federation/src/delivery.rs:91-106 | Claiming a batch at one time is a run that takes its rows one by one. |
| `Delivery.Queue.Resolve` | crates/noombat-federation/src/delivery.rs:343-436 | Each outcome's effect on the queue, each of its writes reaching the database or not. |
| `Delivery.DelayRange` | crates/noombat-federation/src/delivery.rs:440-455 | Every delay is 60 times two to the attempts, within 60 and 30720 seconds. |
| `DeliveryTimes.RetryDefers` | crates/noombat-federation/src/delivery.rs:440-455 | A failed delivery whose retry was written may be claimed exactly from 60 seconds, doubled for each earlier failure, later, and never from the tenth on. |
| `DeliveryTimes.ClaimableExactlyFrom` | crates/noombat-federation/src/delivery.rs:83-106 | At every point of every timely run a row may be claimed exactly from the time its own history of claims and failures says, as long as fewer than ten are recorded. |
| `DeliveryTimes.LeftOutBehindFifty` | crates/noombat-federation/src/delivery.rs:91-106 | A due row left out of a batch is behind fifty that have been due for at least as long. |
| `Delivery.OneOwner` | crates/noombat-federation/src/delivery.rs:83-145 | If claimed deliveries are resolved in under an hour: no row has two owners, none has more than ten failures recorded, and no attempt comes before the sum of the delays it waited for. |
| `Delivery.TriesBounded` | crates/noombat-federation/src/delivery.rs:83-145 | In such a run a row is claimed at most ten times more often than a claim of it ended with nothing written to it. |
| `Delivery.LostTriesHaveNoLimit` | crates/noombat-federation/src/delivery.rs:91-106 | For every number there is such a run that tries one row so often, each claim abandoned. |
| `Delivery.SecondClaimIff` | crates/noombat-federation/src/delivery.rs:91-106 | A claimed row can be claimed again if and only if its hour has passed. |
| `Delivery.ExpiredLeaseHasTwoOwners` | crates/noombat-federation/src/delivery.rs:91-106 | A run past the hour in which a row has two owners. |
| `Delivery.LeavesOnlyBy` | crates/noombat-federation/src/delivery.rs:294-436 | In every run, late workers included, a row that is gone was taken by its own delivery or refused inbox, by a 410 from its inbox, or with its sender's account. |
| `Delivery.GoneClearsInbox` | crates/noombat-federation/src/delivery.rs:397-402 | In every run a 410 whose clearing was written clears its inbox and no other. |
| `Delivery.ExhaustedRowsKept` | crates/noombat-federation/src/delivery.rs:91-106 | In every timely run a row given up on is never claimed again and stays as it is while it is there. |
| `ChatmailOps.Ledger.EnqueueDelete` | crates/noombat-api/src/chatmail_ops.rs:56-68 | Recording an address that has an operation changes nothing. |
| `ChatmailOps.Ledger.MarkFailed` | crates/noombat-api/src/chatmail_ops.rs:211-243 | A failure counts, delays, and gives up at the eighth. |
| `ChatmailOps.Drain` | crates/noombat-api/src/chatmail_ops.rs:136-191 | Each operation is closed only when the deletion was accepted and the mailbox then reported gone, and deferred otherwise. |
| `ChatmailOps.DrainIsRun` | crates/noombat-api/src/chatmail_ops.rs:136-191 | Draining a batch that nothing disturbs is a run that works on each operation in turn. |
| `ChatmailOps.WorkOutcome` | crates/noombat-api/src/chatmail_ops.rs:155-191 | Work that is written back closes its operation if and only if the deletion was accepted, the question answered and the mailbox gone. |
| `ChatmailOps.TriedWhenDue` | crates/noombat-api/src/chatmail_ops.rs:211-243 | In every run an operation may be worked on exactly from its last outcome plus the wait for that many, and is given up on exactly at the eighth. |
| `ChatmailOps.RunIsSound` | crates/noombat-api/src/chatmail_ops.rs:136-243 | In every run at most eight outcomes are written for an address, it is given up on only at the eighth, and once it is marked succeeded its mailbox is gone unless the address was given out again. |
| `ChatmailOps.SettledAddressKeepsItsMailbox` | crates/noombat-api/src/chatmail_ops.rs:56-68 | A mailbox at an address already settled outlasts every later erasure of its holder. |
| `ChatmailOps.ErasureReachesMailboxIff` | crates/noombat-api/src/chatmail_ops.rs:56-68 | Once an erasure is recorded, some way on removes the mailbox if and only if the address was not settled before. |
| `Erasure.Instance.RecordMailbox` | crates/noombat-api/src/erasure.rs:80-99 | The mailbox's deletion is recorded before the tombstone, if the address could be read. |
| `Erasure.Instance.Tombstone` | crates/noombat-identity/src/repo.rs:1015-1050 | The tombstone clears the actor and its rows, or changes nothing. |
| `Erasure.Instance.EraseActor` | crates/noombat-api/src/erasure.rs:38-152 | One erasure in its order, with any read, write, call or deletion failing. |
| `Erasure.Instance.Settle` | crates/noombat-api/src/erasure.rs:101-149 | What follows the tombstone, from what was read before it. |
| `Erasure.Instance.Sweep` | crates/noombat-api/src/erasure.rs:241-270 | Every listed account is tried, and the successes are counted. |
| `Erasure.Instance.PurgeRetained` | crates/noombat-api/src/erasure.rs:192-233 | Every listed row is deleted with what refers to it, and its mailbox work loses the link only. |
| `ErasureSafety.FollowerInboxesAre` | crates/noombat-identity/src/repo.rs:438-454 | The inboxes read are exactly those the accepted followers receive at: the shared one, else their own, else the one under their id. |
| `ErasureSafety.ErasurePromises` | crates/noombat-api/src/erasure.rs:38-152 | Of an erasure that goes through, whatever reads and queue writes fail and whatever the backend and the sidecar do: one `Delete` for each inbox an accepted follower receives at, where it was read and could be queued, and for no other; the mailbox's deletion on record as far as it could be; posts, postings and follows gone, and nobody else's, and so the objects it knew of; the actor's row as it is to be; and each document it knew of, and no other, withdrawn as its own removal went. |
| `ErasureSafety.DocumentsWithdrawnForGood` | crates/noombat-api/src/erasure.rs:127-149 | Whatever the index holds and however it came there: each profile, post and posting document the actor had is gone from it or owed a removal, then and in every later state reached by steps that are disciplined as far as that document goes. |
| `ErasureSafety.WithdrawalIsRun` | crates/noombat-api/src/erasure.rs:127-149 | An erasure's withdrawals are a run of the search queue, from any state. |
| `ErasureSafety.LateWriteAfterErasureIff` | crates/noombat-api/src/search_sync.rs:45-86 | A direct write under way at the erasure that lands after it leaves the document gone or owed if and only if there is no backend, or the removal's call failed, or it could not be marked done. |
| `ErasureSafety.EarlyFailureLosesNothing` | crates/noombat-api/src/erasure.rs:94-101 | An erasure that failed by the tombstone says which way, and changed only the mailbox's record. |
| `ErasureSafety.MailboxOwed` | crates/noombat-api/src/erasure.rs:80-99 | However an erasure ends, its mailbox's deletion is on record as far as the address could be read and the record written. |
| `ErasureSafety.RetryCompletesIff` | crates/noombat-api/src/erasure.rs:101-149 | An erasure that failed at the tombstone or the flag, or stopped after it, and was tried again with everything working: every follower's inbox has its one `Delete` if and only if the tombstone failed or there was no follower; every document is gone or owed if and only if the tombstone failed or the posts and postings were so before. |
| `ErasureSafety.StopLosesTheRest` | crates/noombat-api/src/erasure.rs:123-149 | A process stopped after the flag was cleared leaves an account that is never due again, no `Delete` and the index as it was. |
| `ErasureSafety.SecondErasureDropsDeletes` | crates/noombat-identity/src/repo.rs:1173-1176 | A second erasure drops the first one's `Delete`s still queued and queues none. |
| `ErasureSafety.SweepTriesEach` | crates/noombat-api/src/erasure.rs:241-270 | A sweep tries every listed account, whatever becomes of the others: each ends as its own erasure leaves it, nobody else's row changes, and the count is of those that went through. |
| `ErasureSafety.SweepLeavesOnlyFailures` | crates/noombat-api/src/erasure.rs:155-169 | A sweep over the accounts that are due leaves due exactly those whose own erasure failed. |
| `ErasureSafety.PurgeableExactlyWhen` | crates/noombat-api/src/erasure.rs:192-209 | A tombstoned row may go if and only if purging it loses nothing or thirty days have passed. |
| `ErasureSafety.PurgeLosesNothingIff` | crates/noombat-api/src/erasure.rs:192-209 | Purging a row loses no queued activity and no link of pending mailbox work if and only if nothing queued is its and no mailbox work of it is left to try. |
| `ErasureSafety.RetentionLosesNothing` | crates/noombat-api/src/erasure.rs:192-233 | A purge of any listed rows, none past the backstop, loses nothing, takes exactly the rows it could with what belongs to them, and counts them. |
| `ErasureSafety.LivingKept` | crates/noombat-identity/src/repo.rs:1242-1255 | No purge takes the row of an account that was not erased. |
| `ErasureSafety.DeleteOutlivesPurge` | crates/noombat-api/src/erasure.rs:176-209 | As long as an erasure's `Delete` is in the queue, one given up on included, the tombstoned row whose key signs it is not purgeable before the backstop. |
| `Backfill.Database.PostsBatch` | crates/noombat-federation/src/backfill.rs:129-206 | A batch brings the first five hundred stale posts up to date and reports how many, stopping wherever a statement fails or the process ends. |
| `Backfill.Database.ActorsBatch` | crates/noombat-federation/src/backfill.rs:218-257 | The same for actors. |
| `Backfill.Database.Run` | crates/noombat-federation/src/backfill.rs:71-116 | The sweep ends; every row is as it was or as it is to be; without failures every stale post holds its wire record's content or its own cleaned markup, every stale summary is cleaned, nothing else moves and the report counts the stale rows; and one failing statement keeps only its own table back. |
| `Backfill.Database.RunAgain` | crates/noombat-federation/src/backfill.rs:71-116 | A sweep cut off anywhere and one more leave what an undisturbed sweep would, and the next changes nothing. |
| `Backfill.AnySweepConverges` | crates/noombat-federation/src/backfill.rs:71-257 | However its row updates are cut up and ordered, a sweep takes at most one step for each stale row, and that many bring it to the one target. |
| `Backfill.SweepIsSafe` | crates/noombat-federation/src/backfill.rs:169-200 | In every state of every sweep posts by local users are untouched, wire records stay, and Markdown is rewritten only from a wire record that carries content. |
| `Backfill.TargetIsNotBehind` | crates/noombat-federation/src/backfill.rs:71-116 | At the target nothing is stale. |
| `Backfill.TargetIs` | crates/noombat-federation/src/backfill.rs:153-206 | The target is the one state in which each stale post has its wire record's content, or without that its own markup cleaned and its Markdown kept, each stale summary is cleaned, and every other row is as it was. |
| `Backfill.WorkListIs` | crates/noombat-federation/src/backfill.rs:129-142 | A batch takes the first five hundred stale rows in order, or all. |
| `FederatedActor.EscapesOnce` | crates/noombat-federation/src/downgrade.rs:29-36 | The five replacements escape every character exactly once. |
| `FederatedActor.EscapedCharIs` | crates/noombat-federation/src/downgrade.rs:29-36 | What each of the five characters becomes. |
| `FederatedActor.EscapeRoundTrip` | crates/noombat-federation/src/downgrade.rs:29-36 | Escaped text holds no markup, and unescaping returns the text. |
| `FederatedActor.BuildAttachments` | crates/noombat-federation/src/downgrade.rs:340-401 | The attachments, loop by loop. |
| `FederatedActor.CollectSections` | crates/noombat-federation/src/downgrade.rs:408-423 | Sections of a type are collected in order under its property. |
| `FederatedActor.BuildFederatedActor` | crates/noombat-federation/src/downgrade.rs:214-430 | The serialiser builds the specified document step by step. |
| `FederatedActor.CarriesIdentity` | crates/noombat-federation/src/downgrade.rs:249-268 | Every document holds the actor's id, type, name, page, inbox, outbox, collections, shared inbox and public key under their properties. |
| `FederatedActor.CarriesOptional` | crates/noombat-federation/src/downgrade.rs:270-331 | Connections, name, summary, Ed25519 key, target, aliases and pictures are there exactly as far as the actor has them, and never as a null. |
| `FederatedActor.ContextIs` | crates/noombat-ap/src/context.rs:74-113 | The context lists the vocabularies needed in their order and defines exactly the terms needed. |
| `FederatedActor.CarriesAttachments` | crates/noombat-federation/src/downgrade.rs:340-405 | There are attachments if and only if the profile is federated and has some, and each is in its place: the fields, links escaped, and then the links. |
| `FederatedActor.DeclaresWhatItCarries` | crates/noombat-ap/src/context.rs:74-113 | The context declares the Multikey terms and `movedTo` if and only if the document carries them, and schema.org's whenever it carries an attachment or a section. |
| `FederatedActor.OnlyShowablePartShows` | crates/noombat-federation/src/downgrade.rs:214-430 | Two accounts alike in what may show get equal documents if and only if they agree on needing the schema.org terms. |
| `FederatedActor.SectionArrays` | crates/noombat-federation/src/downgrade.rs:408-427 | Each section property holds the data of the public sections of its type, all and in order, and is otherwise absent. |
| `FederatedActor.TtlKeptIff` | crates/noombat-federation/src/downgrade.rs:297-298 | The lifetime hint survives if and only if no public section is of the type `ttl`. |
| `FixedWindow.Redis.CheckKey` | crates/noombat-api/src/rate_limit.rs:179-198 | The script's commands and the comparison decide from the key's live count. |
| `FixedWindow.WindowAdmitsFirst` | crates/noombat-api/src/rate_limit.rs:54-61 | A counter counts the requests made since it was created; the first `limit` of them and no others are admitted. |
| `FixedWindow.SpanBound` | crates/noombat-api/src/rate_limit.rs:54-61 | For any requests of any mix of keys in order of time, at most 2 * limit - 1 of a key's are admitted in any span of a window's length, ends included. |
| `FixedWindow.SpanBoundIsSharp` | crates/noombat-api/src/rate_limit.rs:54-61 | That bound is reached for every limit and window. |
| `FixedWindow.KeysIndependent` | crates/noombat-api/src/rate_limit.rs:170-178 | A key's counter and admissions are what they would be if nobody else had made a request. |
| `FixedWindow.NoWindowNeverLimits` | crates/noombat-api/src/rate_limit.rs:54-61 | With a window of no length no counter is kept, after any traffic a request is allowed if and only if the limit is at least one, and otherwise one second is advertised. |
| `FixedWindow.RetryAfter` | crates/noombat-api/src/rate_limit.rs:150-164 | The response advertises at least one second. |
| `FixedWindow.RetryAfterSufficesIff` | crates/noombat-api/src/rate_limit.rs:150-198 | A limited caller who waits as long as the response says is admitted if and only if the seconds left were rounded up or there was less than one; a second more always suffices. |
| `FoldHeader.FoldHeaderValue` | crates/noombat-chat/src/session.rs:425-461 | The folding loop builds the specified text, or panics where a cut would split a character. |
| `FoldHeader.FoldedLines` | crates/noombat-chat/src/session.rs:425-461 | The field ends in CRLF, its continuations start with the one added space and all but the last are full, and every line is at most 76 bytes if and only if the prefix is. |
| `FoldHeader.FoldRoundTrip` | crates/noombat-chat/src/session.rs:425-461 | Dropping every CRLF with its space and the final CRLF returns the prefix and the value exactly. |
| `FoldHeader.FoldsIff` | crates/noombat-chat/src/session.rs:443-456 | Folding panics if and only if a character lies across a position where a line ends. |
| `FoldHeader.AsciiCutsCleanly` | crates/noombat-chat/src/session.rs:443-456 | ASCII values always fold. |
| `FoldHeader.StandardReaderSeesValueIff` | crates/noombat-chat/src/session.rs:419-424 | A reader that unfolds as section 2.2.3 of RFC 5322 says gets the value back if and only if it fits on the first line, and otherwise finds one space more for each continuation. |
| `Glob.GlobToRegex` | scripts/check-codeql-config.py:82-101 | The scanning loop produces the specified text, longest token first. |
| `Glob.TextParses` | scripts/check-codeql-config.py:82-101 | Every compiled text parses as a regular expression, to the one that was meant. |
| `Glob.DirsIs` | scripts/check-codeql-config.py:86-88 | The group for whole directories matches exactly the runs of non-empty components. |
| `Glob.CompiledMeansGlob` | scripts/check-codeql-config.py:82-109 | For every pattern and every path without a line break, the anchored regular expression matches if and only if the glob does. |
| `Glob.AcceptsMeansGlobs` | scripts/check-codeql-config.py:104-109 | A pattern without wildcards accepts what the two globs of its name and of everything below it match; any other what its own glob matches. |

## Left out

- SearchRuns.SettledRowsShowIntent: is stated of a row that is itself always drained whole and not overtaken by a
  direct write, because a row read before its call can change in between; `StaleMarkAgreesIff` says exactly
  when a successful call's mark then disagrees, for writers of that document in between.
- SearchRuns.RemovalHoldsToTheEnd: has the same condition on its own document, and none on any other.
- ErasureSafety.DocumentsWithdrawnForGood: has the same condition on its own document after the erasure, and
  before it only that its row, if there is one, is sound.
- SearchRuns.StaleMarkAgreesIff: has one worker drain a document at a time, as the one loop of the worker
  does, and no direct call on that document between the read and the mark.
- SearchRuns.HealthyPassesSettle: is about passes with no enqueues between them, because a steady stream of
  new work never settles.
- SessionSafety.AcceptedMessageIsSent: is about sessions whose writes were all taken by both peers, and so is
  `EndsExactlyWhenFinal`; a failed write ends the turn it comes in.
- SearchTimes.RowFollowsHistory: is stated of a row that is always drained whole, as `SettledRowsShowIntent` is.
- DeliveryTimes.ClaimableExactlyFrom: has the assumption of `OneOwner`, because a worker that comes back late
  writes the delay of the attempts it read.
- Delivery.OneOwner: assumes that every claimed delivery is resolved in under an hour, because nothing in the
  code enforces it; `ExpiredLeaseHasTwoOwners` is what happens otherwise. The statement that claims a batch
  is one method here, and row by row in the runs.
- ErasureSafety.ErasurePromises: is about erasures that get past their tombstone and their flag; the others are
  `EarlyFailureLosesNothing`, `RetryCompletesIff` and `StopLosesTheRest`.
- ErasureSafety.SweepTriesEach: assumes that the process is not stopped during the sweep.
- IntegrityProof.TamperingIsInvalid: assumes that canonicalisation and hashing are injective and that a
  signature determines its message under one key. JCS writes a number in one form only, so the statement is
  about documents whose numbers are already in that form: 1 and 1.0 are two numbers here and one there.
- FixedWindow.SpanBound: covers the script in Redis, because the fallback's algorithm is in a library. A key
  is taken to be there until its expiry instant, and `TTL` to round to the nearest second.
- Glob.CompiledMeansGlob: is about paths without a line break, because the dot stops at one and `$` accepts
  one at the end; the file list is split at line breaks.
- Backfill.Database.Run: rows do not appear or vanish during a sweep, because the sweep's own statements
  neither add nor delete any.
- SessionCap.CapHolds: assumes that session threads do not panic.
- Sockets, TLS, timeouts and the network: a stream is a list of buffers and faults, and a wire takes a number
  of bytes before its writes fail.
- The limiter inside a session is an oracle for each MAIL; `RateLimiter` is proved on its own, over times
  that do not decrease.
- MIME parsing, UTF-8 decoding and encoding, JCS, SHA-256, Ed25519, base58 and date parsing are parameters.
- The sanitiser, the extraction of remote content and the backends of the search index, the object store and
  the sidecar are parameters or outcomes of a call.
- Columns that no modelled statement reads: error texts, completion times, and what the tombstone clears in
  the actor's row beyond the mailbox address.
- An operation in the search queue that is neither of the two: the table's own check forbids it.
- Which routes write to the index without the queue: `WriteDirectly` and `DeleteDirectly` may come at any time.
- The workers' loops around one pass.
- Fetching credentials, signing requests and inverting a 410 to remote actors: a delivery has an outcome.
- Downgrading job postings and articles, `sign_as_actor`, key-identifier helpers, administration pages: single
  expressions and queries.
- The order of keys in a JSON object, which canonicalisation fixes.
- The counting around the glob matcher, its configuration file and its baseline.
