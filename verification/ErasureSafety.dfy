/** What an erasure guarantees, when it is worth retrying, and when it is not. */
module ErasureSafety {
  import opened Wrappers
  import opened SearchQueue
  import opened Erasure
  import ChatmailOps
  import SearchRuns

  /** The erasure gets past its tombstone and its flag; any read and any other write may fail, and the
      backend, the sidecar and the object store do anything. */
  predicate GoesThrough(f: Faults) { !f.tombstoneFails && !f.flagStays && !f.stops }

  /** And no read and no queue write fails. */
  ghost predicate DatabaseWorks(f: Faults) {
    && GoesThrough(f)
    && !f.inboxesUnread && !f.postsUnread && !f.jobsUnread && !f.mediaUnread && !f.addressUnread
    && !f.mailboxUnrecorded
    && (forall inbox :: f.enqueues(inbox)) && (forall key :: f.removal(key).recorded)
  }

  /** The documents an actor has in the index. */
  predicate IsDocumentOf(st: Store, actor: Id, key: Key) {
    || key == Key("profiles", actor)
    || (key.index == "posts" && Owned(key.id, actor) in st.posts)
    || (key.index == "jobs" && Owned(key.id, actor) in st.jobs)
  }

  /** Those of them that an erasure gets to know. */
  predicate IsReadDocument(st: Store, actor: Id, f: Faults, key: Key) {
    || key == Key("profiles", actor)
    || (key.index == "posts" && Owned(key.id, actor) in st.posts && !f.postsUnread)
    || (key.index == "jobs" && Owned(key.id, actor) in st.jobs && !f.jobsUnread)
  }

  /** What is sent to an actor goes to the inbox it shares with its server, else to its own, else to the
      one under its id. */
  predicate ReceivesAt(a: Actor, inbox: string) {
    || a.sharedInbox == Some(inbox)
    || (a.sharedInbox == None && a.inbox == Some(inbox))
    || (a.sharedInbox == None && a.inbox == None && inbox == a.apId + "/inbox")
  }

  /** An accepted follower of the actor, whose row is there, receives at that inbox. */
  ghost predicate Reaches(actors: map<Id, Actor>, follows: seq<Follow>, actor: Id, inbox: string) {
    exists f :: f in follows && f.following == actor && f.accepted
      && f.follower in actors && ReceivesAt(actors[f.follower], inbox)
  }

  ghost predicate IsInboxOfFollower(st: Store, actor: Id, inbox: string) {
    Reaches(st.actors, st.follows, actor, inbox)
  }

  // ..... Reads .....

  lemma {:induction false} OwnedByIs(rows: seq<Owned>, owner: Id)
    ensures forall id :: id in OwnedBy(rows, owner) <==> Owned(id, owner) in rows
    decreases |rows|
  {
    if rows != [] {
      OwnedByIs(rows[1..], owner);
      forall id
        ensures id in OwnedBy(rows, owner) <==> Owned(id, owner) in rows
      {
        assert Owned(id, owner) in rows <==> rows[0] == Owned(id, owner) || Owned(id, owner) in rows[1..];
      }
    }
  }

  lemma {:induction false} NotOwnedByIs(rows: seq<Owned>, owner: Id)
    ensures forall r :: r in NotOwnedBy(rows, owner) <==> r in rows && r.owner != owner
    decreases |rows|
  {
    if rows != [] {
      NotOwnedByIs(rows[1..], owner);
      forall r
        ensures r in NotOwnedBy(rows, owner) <==> r in rows && r.owner != owner
      {
        assert r in rows <==> rows[0] == r || r in rows[1..];
      }
    }
  }

  lemma InboxIs(a: Actor, inbox: string)
    ensures InboxOf(a) == inbox <==> ReceivesAt(a, inbox)
  {
  }

  /** The inboxes read for an actor are exactly those its accepted followers receive at. */
  lemma {:induction false} FollowerInboxesAre(actors: map<Id, Actor>, follows: seq<Follow>, actor: Id)
    ensures forall inbox :: inbox in FollowerInboxes(actors, follows, actor) <==> Reaches(actors, follows, actor, inbox)
    decreases |follows|
  {
    hide InboxOf, ReceivesAt;
    if follows != [] {
      hide Reaches;
      FollowerInboxesAre(actors, follows[1..], actor);
      forall inbox
        ensures inbox in FollowerInboxes(actors, follows, actor) <==> Reaches(actors, follows, actor, inbox)
      {
        FirstReaches(actors, follows, actor, inbox);
        if follows[0].follower in actors { InboxIs(actors[follows[0].follower], inbox); }
      }
    }
  }

  lemma FirstReaches(actors: map<Id, Actor>, follows: seq<Follow>, actor: Id, inbox: string)
    requires follows != []
    ensures var f := follows[0];
      Reaches(actors, follows, actor, inbox) <==>
        || (f.following == actor && f.accepted && f.follower in actors && ReceivesAt(actors[f.follower], inbox))
        || Reaches(actors, follows[1..], actor, inbox)
  {
    hide ReceivesAt;
    assert forall f :: f in follows <==> f == follows[0] || f in follows[1..];
  }

  lemma {:induction false} WithoutFollowsIs(follows: seq<Follow>, actor: Id)
    ensures forall f :: f in WithoutFollowsOf(follows, actor) <==>
      f in follows && f.follower != actor && f.following != actor
    decreases |follows|
  {
    if follows != [] {
      WithoutFollowsIs(follows[1..], actor);
      assert forall f :: f in follows <==> f == follows[0] || f in follows[1..];
    }
  }

  // ..... Writes .....

  lemma KeysInAre(index: string, ids: seq<string>)
    ensures forall key :: key in KeysIn(index, ids) <==> key.index == index && key.id in ids
  {
    forall key
      ensures key in KeysIn(index, ids) <==> key.index == index && key.id in ids
    {
      if key.index == index && key.id in ids {
        var i :| 0 <= i < |ids| && ids[i] == key.id;
        assert KeysIn(index, ids)[i] == key;
      }
    }
  }

  lemma DocumentsAre(st: Store, actor: Id)
    ensures forall key :: key in Documents(actor, OwnedBy(st.posts, actor), OwnedBy(st.jobs, actor))
                     <==> IsDocumentOf(st, actor, key)
  {
    OwnedByIs(st.posts, actor);
    OwnedByIs(st.jobs, actor);
    KeysInAre("posts", OwnedBy(st.posts, actor));
    KeysInAre("jobs", OwnedBy(st.jobs, actor));
  }

  lemma ReadDocumentsAre(st: Store, actor: Id, f: Faults)
    ensures forall key ::
      key in Documents(actor, if f.postsUnread then [] else OwnedBy(st.posts, actor),
                       if f.jobsUnread then [] else OwnedBy(st.jobs, actor))
      <==> IsReadDocument(st, actor, f, key)
  {
    hide OwnedBy;
    var posts := if f.postsUnread then [] else OwnedBy(st.posts, actor);
    var jobs := if f.jobsUnread then [] else OwnedBy(st.jobs, actor);
    OwnedByIs(st.posts, actor);
    OwnedByIs(st.jobs, actor);
    KeysInAre("posts", posts);
    KeysInAre("jobs", jobs);
  }

  /** The withdrawals of an erasure, as steps of the search queue. */
  function WithdrawalSteps(backend: bool, keys: seq<Key>, f: Faults, now: int): seq<SearchRuns.Step> {
    if keys == [] then []
    else
      var key := keys[|keys| - 1];
      WithdrawalSteps(backend, keys[..|keys| - 1], f, now) + SearchRuns.RemovalSteps(backend, key, now, f.removal(key))
  }

  /** The withdrawals of an erasure are a run of the search queue, disciplined for every document. */
  lemma {:induction false} WithdrawalIsRun(
    s: SearchRuns.Sys, backend: bool, keys: seq<Key>, f: Faults, now: int, other: Key)
    requires forall key :: f.removal(key).recorded
    ensures var steps := WithdrawalSteps(backend, keys, f, now);
      && SearchRuns.IsDisciplinedOn(s, steps, other)
      && SearchRuns.Onwards(s, steps).db == Withdrawn(s.db, backend, keys, f, now)
      && forall key :: key in keys ==> SearchRuns.HasRemoval(SearchRuns.Onwards(s, steps).db.rows, key)
    decreases |keys|
  {
    hide SearchRuns.IsDisciplinedOn, SearchRuns.Onwards, RemovedDurably, SearchRuns.RemovalSteps;
    if keys == [] {
      SearchRuns.NoStep(s, other);
    } else {
      var n := |keys| - 1;
      var key := keys[n];
      var before := WithdrawalSteps(backend, keys[..n], f, now);
      var last := SearchRuns.RemovalSteps(backend, key, now, f.removal(key));
      WithdrawalIsRun(s, backend, keys[..n], f, now, other);
      SearchRuns.RemovalIsRun(SearchRuns.Onwards(s, before), backend, key, now, f.removal(key), other);
      SearchRuns.OnwardsJoins(s, before, last, other);
      forall k | k in keys
        ensures SearchRuns.HasRemoval(SearchRuns.Onwards(s, before + last).db.rows, k)
      {
        if k != key {
          assert k in keys[..n];
          SearchRuns.RemovalIsForGood(SearchRuns.Onwards(s, before), last, k);
        }
      }
    }
  }

  function CountOf(deliveries: seq<Delivery>, d: Delivery): nat {
    multiset(deliveries)[d]
  }

  lemma {:induction false} WithoutDeliveriesIs(deliveries: seq<Delivery>, actor: Id, d: Delivery)
    ensures CountOf(WithoutDeliveriesOf(deliveries, actor), d) == if d.actor == actor then 0 else CountOf(deliveries, d)
    decreases |deliveries|
  {
    if deliveries != [] {
      WithoutDeliveriesIs(deliveries[1..], actor, d);
      assert deliveries == [deliveries[0]] + deliveries[1..];
    }
  }

  lemma {:induction false} WithDeletesIs(
    deliveries: seq<Delivery>, actor: Id, inboxes: seq<string>, f: Faults, d: Delivery)
    requires forall i, j :: 0 <= i < j < |inboxes| ==> inboxes[i] != inboxes[j]
    ensures CountOf(WithDeletes(deliveries, actor, inboxes, f), d)
         == CountOf(deliveries, d) + if d.actor == actor && d.inbox in inboxes && f.enqueues(d.inbox) then 1 else 0
    decreases |inboxes|
  {
    if inboxes != [] {
      var n := |inboxes| - 1;
      WithDeletesIs(deliveries, actor, inboxes[..n], f, d);
      assert inboxes == inboxes[..n] + [inboxes[n]];
    }
  }

  lemma {:induction false} WithoutObjectsIs(objects: set<string>, keys: seq<string>, f: Faults)
    ensures forall o :: o in WithoutObjects(objects, keys, f) <==> o in objects && !(o in keys && f.deletesObject(o))
    decreases |keys|
  {
    if keys != [] {
      var n := |keys| - 1;
      WithoutObjectsIs(objects, keys[..n], f);
      assert forall o :: o in keys <==> o in keys[..n] || o == keys[n];
    }
  }

  // ..... One erasure .....

  /** What becomes of one document, in the queue and in the index: a fresh removal on record if it could
      be written, settled if its call worked and could be marked, and the document gone unless the call
      was not made. */
  predicate IsWithdrawn(db: Db, after: Db, backend: bool, key: Key, now: int, r: Removal) {
    var settled := backend && r.call == Done && r.cleared;
    && (key in after.docs <==> key in db.docs && (!backend || r.call == Refused))
    && (key in after.docs ==> after.docs[key] == db.docs[key])
    && if r.recorded then
         key in after.rows && after.rows[key] == Row(Remove, None, if settled then Succeeded else Pending, 0, now)
       else
         && (key in after.rows <==> key in db.rows)
         && (key in db.rows ==>
               after.rows[key] == if settled && db.rows[key].operation == Remove
                                  then db.rows[key].(state := Succeeded) else db.rows[key])
  }

  /** The actor's row afterwards: the mailbox forgotten, the time of the erasure kept or set, and the
      request retired. */
  function ErasedActor(a: Actor, now: int): Actor {
    Actor(a.apId, a.isLocal, a.sharedInbox, a.inbox, None, None, if a.erasedAt == None then Some(now) else a.erasedAt)
  }

  /** The mailbox's deletion goes on record, if the address could be read and the record written, and
      is not there already. */
  function OpsAfter(st: Store, actor: Id, f: Faults, now: int): ChatmailOps.Ops {
    if f.addressUnread || f.mailboxUnrecorded || actor !in st.actors then st.mailOps
    else
      match st.actors[actor].chatmail
      case None => st.mailOps
      case Some(address) =>
        if address in st.mailOps then st.mailOps
        else st.mailOps[address := ChatmailOps.MailOp(Some(actor), Pending, 0, now)]
  }

  /** Everything an erasure that goes through promises of the store it leaves. */
  ghost predicate Promised(st: Store, after: Store, backend: bool, actor: Id, f: Faults, now: int)
    requires actor in st.actors && after.actors.Keys == st.actors.Keys
  {
    && (forall d :: CountOf(after.deliveries, d) ==
          if d.actor != actor then CountOf(st.deliveries, d)
          else if IsInboxOfFollower(st, actor, d.inbox) && !f.inboxesUnread && f.enqueues(d.inbox) then 1 else 0)
    && after.mailOps == OpsAfter(st, actor, f, now)
    && (forall o :: o in after.objects <==>
          o in st.objects && !(Owned(o, actor) in st.media && !f.mediaUnread && f.deletesObject(o)))
    && (forall r :: r in after.posts <==> r in st.posts && r.owner != actor)
    && (forall r :: r in after.jobs <==> r in st.jobs && r.owner != actor)
    && (forall r :: r in after.media <==> r in st.media && r.owner != actor)
    && (forall r :: r in after.follows <==> r in st.follows && r.follower != actor && r.following != actor)
    && after.actors[actor] == ErasedActor(st.actors[actor], now)
    && (forall other :: other in st.actors && other != actor ==> after.actors[other] == st.actors[other])
    && (forall key :: if IsReadDocument(st, actor, f, key)
                      then IsWithdrawn(st.search, after.search, backend, key, now, f.removal(key))
                      else SearchRuns.Undisturbed(st.search, after.search, key))
  }

  lemma {:induction false} WithdrawnIs(db: Db, backend: bool, keys: seq<Key>, f: Faults, now: int, key: Key)
    ensures var after := Withdrawn(db, backend, keys, f, now);
      if key in keys then IsWithdrawn(db, after, backend, key, now, f.removal(key))
      else SearchRuns.Undisturbed(db, after, key)
    decreases |keys|
  {
    hide IsWithdrawn;
    if keys != [] {
      var n := |keys| - 1;
      WithdrawnIs(db, backend, keys[..n], f, now, key);
      assert keys == keys[..n] + [keys[n]];
      RemovalIs(db, Withdrawn(db, backend, keys[..n], f, now), backend, keys[n], f.removal(keys[n]), now, key,
                f.removal(key), key in keys[..n]);
    }
  }

  lemma RemovalIs(start: Db, db: Db, backend: bool, removed: Key, r: Removal, now: int, key: Key, mine: Removal,
                  earlier: bool)
    requires removed == key ==> mine == r
    requires if earlier then IsWithdrawn(start, db, backend, key, now, mine)
             else SearchRuns.Undisturbed(start, db, key)
    ensures var after := RemovedDurably(db, backend, removed, now, r);
      if earlier || removed == key then IsWithdrawn(start, after, backend, key, now, mine)
      else SearchRuns.Undisturbed(start, after, key)
  {
  }

  /** A local actor's erasure that goes through, whatever reads and queue writes fail and whatever the
      backend and the sidecar do: a `Delete` is queued exactly once for each inbox an accepted follower
      received at before the rows went, if they could be read and it could be queued, and for no other;
      the mailbox's deletion is on record as far as it could be; its posts, postings and follows are gone
      and nobody else's, and so are the stored objects it was known to have; and the documents it was
      known to have, and no others, are withdrawn as their removals went. */
  lemma ErasurePromises(st: Store, backend: bool, actor: Id, f: Faults, now: int)
    requires GoesThrough(f) && actor in st.actors && st.actors[actor].isLocal
    ensures var (after, r) := Erased(st, backend, actor, f, now);
      r == None && after.actors.Keys == st.actors.Keys && Promised(st, after, backend, actor, f, now)
  {
    hide Erased, CountOf, IsInboxOfFollower, IsWithdrawn, IsReadDocument, SearchRuns.Undisturbed, GoesThrough;
    RowsErased(st, backend, actor, f, now);
    MailboxOwed(st, backend, actor, f, now);
    EachNotified(st, backend, actor, f, now);
    EachWithdrawn(st, backend, actor, f, now);
  }

  lemma RowsErased(st: Store, backend: bool, actor: Id, f: Faults, now: int)
    requires GoesThrough(f) && actor in st.actors && st.actors[actor].isLocal
    ensures var (after, r) := Erased(st, backend, actor, f, now);
      && r == None && after.actors == st.actors[actor := ErasedActor(st.actors[actor], now)]
      && (forall o :: o in after.objects <==>
            o in st.objects && !(Owned(o, actor) in st.media && !f.mediaUnread && f.deletesObject(o)))
      && (forall r :: r in after.posts <==> r in st.posts && r.owner != actor)
      && (forall r :: r in after.jobs <==> r in st.jobs && r.owner != actor)
      && (forall r :: r in after.media <==> r in st.media && r.owner != actor)
      && (forall r :: r in after.follows <==> r in st.follows && r.follower != actor && r.following != actor)
  {
    hide Withdrawn, WithDeletes, WithoutDeliveriesOf, WithoutObjects, FollowerInboxes, OwnedBy, NotOwnedBy, Documents,
      WithoutFollowsOf, ChatmailOps.Owed;
    OwnedByIs(st.media, actor);
    NotOwnedByIs(st.posts, actor);
    NotOwnedByIs(st.jobs, actor);
    NotOwnedByIs(st.media, actor);
    WithoutFollowsIs(st.follows, actor);
    WithoutObjectsIs(st.objects, if f.mediaUnread then [] else OwnedBy(st.media, actor), f);
  }

  /** However an erasure ends, the mailbox's deletion is on record as far as it could be. */
  lemma MailboxOwed(st: Store, backend: bool, actor: Id, f: Faults, now: int)
    ensures Erased(st, backend, actor, f, now).0.mailOps == OpsAfter(st, actor, f, now)
  {
    hide Withdrawn, WithDeletes, WithoutDeliveriesOf, WithoutObjects, FollowerInboxes, OwnedBy, NotOwnedBy, Documents,
      WithoutFollowsOf;
  }

  lemma EachNotified(st: Store, backend: bool, actor: Id, f: Faults, now: int)
    requires GoesThrough(f) && actor in st.actors && st.actors[actor].isLocal
    ensures var after := Erased(st, backend, actor, f, now).0;
      forall d :: CountOf(after.deliveries, d) ==
        if d.actor != actor then CountOf(st.deliveries, d)
        else if IsInboxOfFollower(st, actor, d.inbox) && !f.inboxesUnread && f.enqueues(d.inbox) then 1 else 0
  {
    hide Withdrawn, WithDeletes, WithoutDeliveriesOf, WithoutObjects, FollowerInboxes, OwnedBy, NotOwnedBy, Documents,
      CountOf, Reaches, WithoutFollowsOf;
    var inboxes := if f.inboxesUnread then [] else FollowerInboxes(st.actors, st.follows, actor);
    FollowerInboxesAre(st.actors, st.follows, actor);
    forall d: Delivery
      ensures CountOf(Erased(st, backend, actor, f, now).0.deliveries, d) ==
        if d.actor != actor then CountOf(st.deliveries, d)
        else if IsInboxOfFollower(st, actor, d.inbox) && !f.inboxesUnread && f.enqueues(d.inbox) then 1 else 0
    {
      WithoutDeliveriesIs(st.deliveries, actor, d);
      WithDeletesIs(WithoutDeliveriesOf(st.deliveries, actor), actor, inboxes, f, d);
    }
  }

  lemma EachWithdrawn(st: Store, backend: bool, actor: Id, f: Faults, now: int)
    requires GoesThrough(f) && actor in st.actors && st.actors[actor].isLocal
    ensures var after := Erased(st, backend, actor, f, now).0;
      forall key :: if IsReadDocument(st, actor, f, key)
                    then IsWithdrawn(st.search, after.search, backend, key, now, f.removal(key))
                    else SearchRuns.Undisturbed(st.search, after.search, key)
  {
    hide Withdrawn, WithDeletes, WithoutDeliveriesOf, WithoutObjects, FollowerInboxes, OwnedBy, NotOwnedBy, Documents,
      IsWithdrawn, IsReadDocument, SearchRuns.Undisturbed, WithoutFollowsOf;
    ReadDocumentsAre(st, actor, f);
    var keys := Documents(actor, if f.postsUnread then [] else OwnedBy(st.posts, actor),
                          if f.jobsUnread then [] else OwnedBy(st.jobs, actor));
    var after := Erased(st, backend, actor, f, now).0;
    forall key
      ensures if IsReadDocument(st, actor, f, key)
              then IsWithdrawn(st.search, after.search, backend, key, now, f.removal(key))
              else SearchRuns.Undisturbed(st.search, after.search, key)
    {
      WithdrawnIs(st.search, backend, keys, f, now, key);
    }
  }

  /** Every document of the erased actor is gone from the index or owed a removal, at once and in every
      state the queue reaches afterwards by steps that are disciplined as far as that document goes; the
      drains of every other document may be stale. `s` is the search queue at the erasure, whatever the
      index holds and however it came there, so long as this document's row, if it has one, tells the
      truth; a local account's documents have none until they are removed. */
  lemma DocumentsWithdrawnForGood(
    s: SearchRuns.Sys, more: seq<SearchRuns.Step>,
    st: Store, backend: bool, actor: Id, f: Faults, now: int, key: Key)
    requires st.search == s.db && SearchRuns.SoundAt(s, key)
    requires DatabaseWorks(f) && actor in st.actors && st.actors[actor].isLocal
    requires IsDocumentOf(st, actor, key)
    ensures var keys := Documents(actor, OwnedBy(st.posts, actor), OwnedBy(st.jobs, actor));
      var end := SearchRuns.Onwards(s, WithdrawalSteps(backend, keys, f, now));
      && end.db == Erased(st, backend, actor, f, now).0.search
      && SearchRuns.SoundAt(end, key) && SearchRuns.HasRemoval(end.db.rows, key)
      && (SearchRuns.IsDisciplinedOn(end, more, key) ==>
            SearchRuns.WithdrawnOrOwed(SearchRuns.Onwards(end, more).db, key))
  {
    hide Withdrawn, WithDeletes, WithoutDeliveriesOf, WithoutObjects, FollowerInboxes, OwnedBy, NotOwnedBy, Documents;
    hide SearchRuns.IsDisciplinedOn, SearchRuns.Onwards, SearchRuns.SoundAt, WithdrawalSteps;
    var keys := Documents(actor, OwnedBy(st.posts, actor), OwnedBy(st.jobs, actor));
    var steps := WithdrawalSteps(backend, keys, f, now);
    DocumentsAre(st, actor);
    WithdrawalIsRun(s, backend, keys, f, now, key);
    SearchRuns.KeyStaysSound(s, steps, key);
    var end := SearchRuns.Onwards(s, steps);
    if SearchRuns.IsDisciplinedOn(end, more, key) {
      SearchRuns.RemovalHoldsToTheEnd(end, more, key);
    }
  }

  /** The case of a local account: whatever the index holds, with no row for the document and no durable
      removal of it under way. */
  lemma UnqueuedDocumentIsSound(s: SearchRuns.Sys, key: Key)
    requires key !in s.db.rows && key !in s.removed
    ensures SearchRuns.SoundAt(s, key)
  {
  }

  /** A write of one of the documents that was under way at the erasure and lands after it. Right after
      the erasure, the document is still gone or owed exactly when there is no backend, or the removal's
      call failed, or it could not be marked done. */
  lemma LateWriteAfterErasureIff(
    st: Store, backend: bool, actor: Id, f: Faults, now: int, key: Key, d: Document, removed: set<Key>)
    requires DatabaseWorks(f) && actor in st.actors && st.actors[actor].isLocal
    requires IsDocumentOf(st, actor, key)
    ensures var end := SearchRuns.Sys(Erased(st, backend, actor, f, now).0.search, removed);
      var late := SearchRuns.Next(end, SearchRuns.WriteDirectly(key, d, Done));
      SearchRuns.WithdrawnOrOwed(late.db, key)
      <==> !backend || !f.removal(key).call.Done? || !f.removal(key).cleared
  {
    hide Withdrawn, WithDeletes, WithoutDeliveriesOf, WithoutObjects, FollowerInboxes, OwnedBy, NotOwnedBy, Documents;
    DocumentsAre(st, actor);
    var keys := Documents(actor, OwnedBy(st.posts, actor), OwnedBy(st.jobs, actor));
    RemovalStateAfter(st.search, backend, keys, f, now, key);
  }

  lemma {:induction false} RemovalStateAfter(db: Db, backend: bool, keys: seq<Key>, f: Faults, now: int, key: Key)
    requires (forall k :: f.removal(k).recorded) && key in keys
    ensures var rows := Withdrawn(db, backend, keys, f, now).rows;
      && SearchRuns.HasRemoval(rows, key)
      && (rows[key].state == Succeeded <==> backend && f.removal(key).call.Done? && f.removal(key).cleared)
    decreases |keys|
  {
    var n := |keys| - 1;
    if keys[n] != key {
      assert key in keys[..n];
      RemovalStateAfter(db, backend, keys[..n], f, now, key);
    }
  }

  // ..... Failing, and trying again .....

  /** An erasure that fails by the time of the tombstone has done nothing but put the mailbox's
      deletion on record, so the next sweep starts from the same place. */
  lemma EarlyFailureLosesNothing(st: Store, backend: bool, actor: Id, f: Faults, now: int)
    requires f.tombstoneFails || actor !in st.actors || !st.actors[actor].isLocal
    ensures var (after, r) := Erased(st, backend, actor, f, now);
      && r == Some(if actor !in st.actors then NotFound else if !st.actors[actor].isLocal then NotLocal else Database)
      && after == st.(mailOps := OpsAfter(st, actor, f, now))
  {
    hide FollowerInboxes, OwnedBy;
  }

  lemma {:induction false} NothingOwned(rows: seq<Owned>, owner: Id)
    ensures OwnedBy(NotOwnedBy(rows, owner), owner) == []
    decreases |rows|
  {
    if rows != [] {
      NothingOwned(rows[1..], owner);
      var rest := NotOwnedBy(rows[1..], owner);
      if rows[0].owner != owner {
        assert NotOwnedBy(rows, owner) == [rows[0]] + rest;
        assert ([rows[0]] + rest)[1..] == rest;
      } else {
        assert [] + rest == rest;
      }
    }
  }

  lemma {:induction false} NoFollowersLeft(actors: map<Id, Actor>, follows: seq<Follow>, actor: Id)
    ensures FollowerInboxes(actors, WithoutFollowsOf(follows, actor), actor) == []
    decreases |follows|
  {
    if follows != [] {
      NoFollowersLeft(actors, follows[1..], actor);
      var rest := WithoutFollowsOf(follows[1..], actor);
      if follows[0].follower != actor && follows[0].following != actor {
        assert WithoutFollowsOf(follows, actor) == [follows[0]] + rest;
        assert ([follows[0]] + rest)[1..] == rest;
      } else {
        assert [] + rest == rest;
      }
    }
  }

  /** The tombstone leaves nothing to notify anyone with, and nothing to withdraw but the profile. */
  ghost predicate NothingLeft(st: Store, actor: Id) {
    && actor in st.actors && st.actors[actor].isLocal
    && OwnedBy(st.posts, actor) == [] && OwnedBy(st.jobs, actor) == []
    && FollowerInboxes(st.actors, st.follows, actor) == []
  }

  lemma TombstonedActor(st: Store, backend: bool, actor: Id, f: Faults, now: int)
    requires actor in st.actors && st.actors[actor].isLocal && !f.tombstoneFails
    ensures var first := Erased(st, backend, actor, f, now).0;
      && NothingLeft(first, actor)
      && (f.flagStays || f.stops ==> Erased(st, backend, actor, f, now).1.Some? && first.search == st.search)
  {
    hide Withdrawn, WithDeletes, WithoutDeliveriesOf, WithoutObjects, FollowerInboxes, OwnedBy, NotOwnedBy, Documents,
      WithoutFollowsOf, Settled;
    assert Owing(st, actor, f, now) == st.(mailOps := Owing(st, actor, f, now).mailOps);
    hide Owing;
    var gone := Tombstoned(Owing(st, actor, f, now), actor, now);
    SettledKeeps(gone, backend, actor,
                 if f.inboxesUnread then [] else FollowerInboxes(st.actors, st.follows, actor),
                 if f.postsUnread then [] else OwnedBy(st.posts, actor),
                 if f.jobsUnread then [] else OwnedBy(st.jobs, actor),
                 if f.mediaUnread then [] else OwnedBy(st.media, actor), f, now);
    NothingOwned(st.posts, actor);
    NothingOwned(st.jobs, actor);
    NoFollowersLeft(Erased(st, backend, actor, f, now).0.actors, st.follows, actor);
  }

  lemma SettledKeeps(gone: Store, backend: bool, actor: Id, inboxes: seq<string>, posts: seq<string>,
                     jobs: seq<string>, media: seq<string>, f: Faults, now: int)
    requires actor in gone.actors
    ensures var (after, r) := Settled(gone, backend, actor, inboxes, posts, jobs, media, f, now);
      && after.posts == gone.posts && after.jobs == gone.jobs && after.follows == gone.follows
      && actor in after.actors && after.actors[actor].isLocal == gone.actors[actor].isLocal
      && (f.flagStays || f.stops ==> r.Some? && after.search == gone.search)
  {
    hide Withdrawn, WithDeletes, WithoutObjects, Documents;
  }

  /** Erasing an account of which nothing is left queues no `Delete`, and leaves every document but the
      profile as it was in the index and in the queue. */
  lemma NothingLeftToDo(st: Store, backend: bool, actor: Id, f: Faults, now: int, key: Key, d: Delivery)
    requires DatabaseWorks(f) && NothingLeft(st, actor)
    requires key != Key("profiles", actor) && d.actor == actor
    ensures var after := Erased(st, backend, actor, f, now).0;
      && (key in after.search.rows <==> key in st.search.rows)
      && (key in st.search.rows ==> after.search.rows[key] == st.search.rows[key])
      && (key in after.search.docs <==> key in st.search.docs)
      && CountOf(after.deliveries, d) == 0
  {
    hide Withdrawn, WithDeletes, WithoutDeliveriesOf, WithoutObjects, FollowerInboxes, OwnedBy, NotOwnedBy, Documents,
      CountOf, WithoutFollowsOf, ChatmailOps.Owed;
    OnlyProfile(st.search, backend, actor, f, now, key);
    WithoutDeliveriesIs(st.deliveries, actor, d);
    WithDeletesIs(WithoutDeliveriesOf(st.deliveries, actor), actor, [], f, d);
  }

  /** A retry of an erasure that ended between the tombstone and the broadcast finds no posts, postings
      or followers any more. The documents of the actor's posts and postings stay as they were in the
      index and in the queue, and no `Delete` is queued for anyone. */
  lemma FlagFailureLosesTheRest(
    st: Store, backend: bool, actor: Id, f: Faults, now: int, f2: Faults, later: int, key: Key, d: Delivery)
    requires actor in st.actors && st.actors[actor].isLocal && !f.tombstoneFails && (f.flagStays || f.stops)
    requires DatabaseWorks(f2)
    requires key != Key("profiles", actor) && d.actor == actor
    ensures var (first, r) := Erased(st, backend, actor, f, now);
      var second := Erased(first, backend, actor, f2, later).0;
      && r.Some?
      && (key in second.search.rows <==> key in st.search.rows)
      && (key in st.search.rows ==> second.search.rows[key] == st.search.rows[key])
      && (key in second.search.docs <==> key in st.search.docs)
      && CountOf(second.deliveries, d) == 0
  {
    hide Erased, NothingLeft, CountOf, DatabaseWorks;
    TombstonedActor(st, backend, actor, f, now);
    NothingLeftToDo(Erased(st, backend, actor, f, now).0, backend, actor, f2, later, key, d);
  }

  lemma OnlyProfile(db: Db, backend: bool, actor: Id, f: Faults, now: int, key: Key)
    requires key != Key("profiles", actor)
    ensures var after := Withdrawn(db, backend, Documents(actor, [], []), f, now);
      && (key in after.rows <==> key in db.rows) && (key in db.rows ==> after.rows[key] == db.rows[key])
      && (key in after.docs <==> key in db.docs)
  {
    assert Documents(actor, [], []) == [Key("profiles", actor)];
    assert [Key("profiles", actor)][..0] == [];
  }

  lemma {:induction false} WithdrawnEach(db: Db, backend: bool, keys: seq<Key>, f: Faults, now: int, key: Key)
    requires (forall k :: f.removal(k).recorded) && key in keys
    ensures SearchRuns.WithdrawnOrOwed(Withdrawn(db, backend, keys, f, now), key)
    decreases |keys|
  {
    var n := |keys| - 1;
    if keys[n] != key {
      assert key in keys[..n];
      WithdrawnEach(db, backend, keys[..n], f, now, key);
    }
  }

  /** Every inbox an accepted follower had before the erasure has its one `Delete`. */
  ghost predicate AllNotified(st: Store, after: Store, actor: Id) {
    forall inbox :: IsInboxOfFollower(st, actor, inbox) ==> CountOf(after.deliveries, Delivery(actor, inbox)) == 1
  }

  /** Every document of the actor before the erasure is gone from the index or owed a removal. */
  ghost predicate AllWithdrawn(st: Store, after: Store, actor: Id) {
    forall key :: IsDocumentOf(st, actor, key) ==> SearchRuns.AbsentOrOwed(after.search, key)
  }

  /** The actor's posts and postings were gone from the index, or owed a removal, to begin with. */
  ghost predicate WritingWithdrawn(st: Store, actor: Id) {
    forall key :: IsDocumentOf(st, actor, key) && key != Key("profiles", actor) ==>
      SearchRuns.AbsentOrOwed(st.search, key)
  }

  lemma CompleteErasure(st: Store, backend: bool, actor: Id, f: Faults, now: int)
    requires DatabaseWorks(f) && actor in st.actors && st.actors[actor].isLocal
    ensures var after := Erased(st, backend, actor, f, now).0;
      AllNotified(st, after, actor) && AllWithdrawn(st, after, actor)
  {
    hide Withdrawn, WithDeletes, WithoutDeliveriesOf, WithoutObjects, FollowerInboxes, OwnedBy, NotOwnedBy, Documents,
      CountOf, SearchRuns.AbsentOrOwed, IsDocumentOf;
    ErasurePromises(st, backend, actor, f, now);
    DocumentsAre(st, actor);
    var after := Erased(st, backend, actor, f, now).0;
    forall key | IsDocumentOf(st, actor, key)
      ensures SearchRuns.AbsentOrOwed(after.search, key)
    {
      var keys := Documents(actor, OwnedBy(st.posts, actor), OwnedBy(st.jobs, actor));
      WithdrawnEach(st.search, backend, keys, f, now, key);
    }
  }

  /** An erasure that failed at the tombstone or at the flag, or stopped after it, and was then tried again
      with everything working, has notified every follower exactly when it failed at the tombstone or
      there was no follower; and has withdrawn every document exactly when it failed at the tombstone or
      the actor's posts and postings were withdrawn already. */
  lemma RetryCompletesIff(st: Store, backend: bool, actor: Id, f: Faults, now: int, f2: Faults, later: int)
    requires actor in st.actors && st.actors[actor].isLocal
    requires f.tombstoneFails || f.flagStays || f.stops
    requires DatabaseWorks(f2)
    ensures var (first, r) := Erased(st, backend, actor, f, now);
      var (second, r2) := Erased(first, backend, actor, f2, later);
      && r.Some? && r2 == None
      && (AllNotified(st, second, actor)
          <==> f.tombstoneFails || !exists inbox :: IsInboxOfFollower(st, actor, inbox))
      && (AllWithdrawn(st, second, actor) <==> f.tombstoneFails || WritingWithdrawn(st, actor))
  {
    if f.tombstoneFails {
      RetryAfterTombstone(st, backend, actor, f, now, f2, later);
    } else {
      RetryAfterFlag(st, backend, actor, f, now, f2, later);
    }
  }

  lemma RetryAfterTombstone(st: Store, backend: bool, actor: Id, f: Faults, now: int, f2: Faults, later: int)
    requires actor in st.actors && st.actors[actor].isLocal && f.tombstoneFails && DatabaseWorks(f2)
    ensures var (first, r) := Erased(st, backend, actor, f, now);
      var (second, r2) := Erased(first, backend, actor, f2, later);
      r.Some? && r2 == None && AllNotified(st, second, actor) && AllWithdrawn(st, second, actor)
  {
    hide Erased, CountOf;
    EarlyFailureLosesNothing(st, backend, actor, f, now);
    var first := Erased(st, backend, actor, f, now).0;
    ErasurePromises(first, backend, actor, f2, later);
    CompleteErasure(first, backend, actor, f2, later);
    forall key
      ensures IsDocumentOf(st, actor, key) <==> IsDocumentOf(first, actor, key)
    {
    }
    forall inbox
      ensures IsInboxOfFollower(st, actor, inbox) <==> IsInboxOfFollower(first, actor, inbox)
    {
    }
  }

  lemma RetryAfterFlag(st: Store, backend: bool, actor: Id, f: Faults, now: int, f2: Faults, later: int)
    requires actor in st.actors && st.actors[actor].isLocal && !f.tombstoneFails && (f.flagStays || f.stops)
    requires DatabaseWorks(f2)
    ensures var (first, r) := Erased(st, backend, actor, f, now);
      var (second, r2) := Erased(first, backend, actor, f2, later);
      && r.Some? && r2 == None
      && (AllNotified(st, second, actor) <==> !exists inbox :: IsInboxOfFollower(st, actor, inbox))
      && (AllWithdrawn(st, second, actor) <==> WritingWithdrawn(st, actor))
  {
    hide Erased, CountOf, SearchRuns.AbsentOrOwed, IsInboxOfFollower, IsDocumentOf, NothingLeft, DatabaseWorks;
    var first := Erased(st, backend, actor, f, now).0;
    var second := Erased(first, backend, actor, f2, later).0;
    TombstonedActor(st, backend, actor, f, now);
    RetryWorks(first, backend, actor, f2, later);
    forall inbox
      ensures CountOf(second.deliveries, Delivery(actor, inbox)) == 0
    {
      FlagFailureLosesTheRest(st, backend, actor, f, now, f2, later, Key("posts", actor), Delivery(actor, inbox));
    }
    forall key | IsDocumentOf(st, actor, key)
      ensures SearchRuns.AbsentOrOwed(second.search, key)
          <==> key == Key("profiles", actor) || SearchRuns.AbsentOrOwed(st.search, key)
    {
      if key != Key("profiles", actor) {
        FlagFailureLosesTheRest(st, backend, actor, f, now, f2, later, key, Delivery(actor, ""));
        SameWithdrawal(st.search, second.search, key);
      }
    }
  }

  lemma RetryWorks(first: Store, backend: bool, actor: Id, f: Faults, now: int)
    requires DatabaseWorks(f) && NothingLeft(first, actor)
    ensures var (second, r) := Erased(first, backend, actor, f, now);
      r == None && SearchRuns.AbsentOrOwed(second.search, Key("profiles", actor))
  {
    hide Erased, SearchRuns.AbsentOrOwed, CountOf;
    ErasurePromises(first, backend, actor, f, now);
    CompleteErasure(first, backend, actor, f, now);
    assert IsDocumentOf(first, actor, Key("profiles", actor));
  }

  lemma SameWithdrawal(db: Db, db': Db, key: Key)
    requires (key in db'.rows <==> key in db.rows) && (key in db.rows ==> db'.rows[key] == db.rows[key])
    requires key in db'.docs <==> key in db.docs
    ensures SearchRuns.AbsentOrOwed(db', key) <==> SearchRuns.AbsentOrOwed(db, key)
  {
  }

  /** An erasure whose process stopped once the flag was cleared is not even tried again: the account is
      never due any more, with not one `Delete` queued and its writing as it was in the index. */
  lemma StopLosesTheRest(st: Store, backend: bool, actor: Id, f: Faults, now: int, grace: int, later: int)
    requires actor in st.actors && st.actors[actor].isLocal
    requires !f.tombstoneFails && !f.flagStays && f.stops
    ensures var (after, r) := Erased(st, backend, actor, f, now);
      && r == Some(Stopped) && after.search == st.search
      && actor in after.actors && after.actors[actor].deletionRequested == None
      && !GraceOver(after.actors[actor], grace, later)
      && forall d: Delivery :: d.actor == actor ==> CountOf(after.deliveries, d) == 0
  {
    hide Withdrawn, WithDeletes, WithoutDeliveriesOf, WithoutObjects, FollowerInboxes, OwnedBy, NotOwnedBy, Documents,
      CountOf, WithoutFollowsOf, ChatmailOps.Owed;
    var after := Erased(st, backend, actor, f, now).0;
    forall d: Delivery | d.actor == actor
      ensures CountOf(after.deliveries, d) == 0
    {
      WithoutDeliveriesIs(st.deliveries, actor, d);
    }
  }

  /** Erasing an account a second time drops the first time's `Delete`s that are still queued, and
      queues none in their place. `queued` is what the queue holds by then. */
  lemma SecondErasureDropsDeletes(
    st: Store, backend: bool, actor: Id, f: Faults, now: int, queued: seq<Delivery>, f2: Faults, later: int,
    d: Delivery)
    requires DatabaseWorks(f) && DatabaseWorks(f2) && actor in st.actors && st.actors[actor].isLocal
    requires d.actor == actor
    ensures var next := Erased(st, backend, actor, f, now).0.(deliveries := queued);
      CountOf(Erased(next, backend, actor, f2, later).0.deliveries, d) == 0
  {
    hide Erased, CountOf;
    TombstonedActor(st, backend, actor, f, now);
    var next := Erased(st, backend, actor, f, now).0.(deliveries := queued);
    NothingLeftToDo(next, backend, actor, f2, later, Key("posts", actor), d);
  }

  // ..... The sweep .....

  /** What an erasure leaves of an actor's row, whatever goes wrong but the process stopping. */
  function ActorAfter(a: Actor, f: Faults, now: int): Actor {
    if f.tombstoneFails then a
    else if f.flagStays then ErasedActor(a, now).(deletionRequested := a.deletionRequested)
    else ErasedActor(a, now)
  }

  lemma ActorsAfter(st: Store, backend: bool, actor: Id, f: Faults, now: int)
    requires actor in st.actors && st.actors[actor].isLocal && !f.stops
    ensures var (after, r) := Erased(st, backend, actor, f, now);
      && after.actors == st.actors[actor := ActorAfter(st.actors[actor], f, now)]
      && (r.None? <==> !f.tombstoneFails && !f.flagStays)
  {
    hide Settled, OwnedBy, FollowerInboxes;
    var owed := Owing(st, actor, f, now);
    var a := st.actors[actor];
    assert owed.actors == st.actors;
    hide Owing;
    assert st.actors[actor := st.actors[actor]] == st.actors;
    if !f.tombstoneFails {
      var gone := Tombstoned(owed, actor, now);
      assert gone.actors
          == st.actors[actor := ErasedActor(a, now).(deletionRequested := a.deletionRequested)];
      hide Tombstoned;
      SettledActors(gone, backend, actor,
                    if f.inboxesUnread then [] else FollowerInboxes(st.actors, st.follows, actor),
                    if f.postsUnread then [] else OwnedBy(st.posts, actor),
                    if f.jobsUnread then [] else OwnedBy(st.jobs, actor),
                    if f.mediaUnread then [] else OwnedBy(st.media, actor), f, now);
    }
  }

  lemma SettledActors(gone: Store, backend: bool, actor: Id, inboxes: seq<string>, posts: seq<string>,
                      jobs: seq<string>, media: seq<string>, f: Faults, now: int)
    requires actor in gone.actors && !f.stops
    ensures var (after, r) := Settled(gone, backend, actor, inboxes, posts, jobs, media, f, now);
      && (r.None? <==> !f.flagStays)
      && after.actors == if f.flagStays then gone.actors
                         else gone.actors[actor := gone.actors[actor].(deletionRequested := None)]
  {
    hide Withdrawn, WithDeletes, WithoutObjects, Documents;
  }

  predicate Completes(f: Faults) { !f.tombstoneFails && !f.flagStays }

  /** The accounts of a list whose erasure went through. */
  function Completed(due: seq<Id>, faults: Id -> Faults): set<Id> {
    set id | id in due && Completes(faults(id))
  }

  lemma CompletedGrows(due: seq<Id>, faults: Id -> Faults)
    requires due != [] && due[|due| - 1] !in due[..|due| - 1]
    ensures var n := |due| - 1;
      |Completed(due, faults)| == |Completed(due[..n], faults)| + if Completes(faults(due[n])) then 1 else 0
  {
    hide Completes;
    var n := |due| - 1;
    assert due == due[..n] + [due[n]];
    var last: set<Id> := if Completes(faults(due[n])) then {due[n]} else {};
    assert Completed(due, faults) == Completed(due[..n], faults) + last;
  }

  /** What a sweep has made of the actors' rows. */
  ghost predicate EachTried(
    before: map<Id, Actor>, after: map<Id, Actor>, due: seq<Id>, faults: Id -> Faults, now: int)
  {
    && after.Keys == before.Keys
    && forall id :: id in before ==>
         after[id] == if id in due then ActorAfter(before[id], faults(id), now) else before[id]
  }

  lemma EachTriedGrows(
    start: map<Id, Actor>, before: map<Id, Actor>, due: seq<Id>, id: Id, faults: Id -> Faults, now: int)
    requires EachTried(start, before, due, faults, now) && id in start && id !in due
    ensures EachTried(start, before[id := ActorAfter(before[id], faults(id), now)], due + [id], faults, now)
  {
    hide ActorAfter;
  }

  /** A sweep tries every listed account, whatever becomes of the others: each ends as its own erasure
      leaves it, nobody else's row changes, and the count is of those that went through. */
  lemma {:induction false} SweepTriesEach(st: Store, backend: bool, due: seq<Id>, faults: Id -> Faults, now: int)
    requires forall id :: !faults(id).stops
    requires forall i :: 0 <= i < |due| ==> due[i] in st.actors && st.actors[due[i]].isLocal
    requires forall i, j :: 0 <= i < j < |due| ==> due[i] != due[j]
    ensures var (after, count) := Swept(st, backend, due, faults, now);
      count == |Completed(due, faults)| && EachTried(st.actors, after.actors, due, faults, now)
    decreases |due|
  {
    hide Erased, ActorAfter;
    if due == [] {
      assert Completed(due, faults) == {};
    } else {
      var n := |due| - 1;
      SweepTriesEach(st, backend, due[..n], faults, now);
      var before := Swept(st, backend, due[..n], faults, now).0;
      assert due[n] !in due[..n] && due == due[..n] + [due[n]];
      assert due[n] in before.actors && before.actors[due[n]] == st.actors[due[n]];
      hide Completed, EachTried;
      ActorsAfter(before, backend, due[n], faults(due[n]), now);
      CompletedGrows(due, faults);
      EachTriedGrows(st.actors, before.actors, due[..n], due[n], faults, now);
    }
  }

  /** A sweep over the accounts whose days of grace are over leaves due exactly those whose own erasure
      failed, so that with nothing failing the next sweep has nothing to do. */
  lemma SweepLeavesOnlyFailures(st: Store, backend: bool, due: seq<Id>, faults: Id -> Faults, grace: int, now: int)
    requires forall id :: !faults(id).stops
    requires forall i, j :: 0 <= i < j < |due| ==> due[i] != due[j]
    requires forall id :: id in due <==> id in st.actors && GraceOver(st.actors[id], grace, now)
    ensures var after := Swept(st, backend, due, faults, now).0;
      forall id :: id in after.actors ==>
        var a := after.actors[id];
        (a.isLocal && a.deletionRequested != None && a.deletionRequested.value < now - grace * 86_400)
        <==> id in due && (faults(id).tombstoneFails || faults(id).flagStays)
  {
    hide Swept;
    SweepTriesEach(st, backend, due, faults, now);
  }

  // ..... Retention .....

  /** Nothing still to be done is lost: every queued activity stays, and so does every mailbox
      operation, one that is still to be tried keeping the link to its account. */
  predicate NothingOwedIsLost(st: Store, after: Store) {
    && after.deliveries == st.deliveries
    && after.mailOps.Keys == st.mailOps.Keys
    && forall a :: a in st.mailOps ==>
         if st.mailOps[a].state == Pending then after.mailOps[a] == st.mailOps[a]
         else after.mailOps[a] == st.mailOps[a].(actor := after.mailOps[a].actor)
  }

  lemma {:induction false} NoDeliveryToDrop(deliveries: seq<Delivery>, actor: Id)
    ensures WithoutDeliveriesOf(deliveries, actor) == deliveries <==> !HasDelivery(deliveries, actor)
    ensures |WithoutDeliveriesOf(deliveries, actor)| <= |deliveries|
    decreases |deliveries|
  {
    if deliveries != [] {
      var first, rest := deliveries[0], deliveries[1..];
      NoDeliveryToDrop(rest, actor);
      assert deliveries == [first] + rest;
      assert forall d :: d in deliveries <==> d == first || d in rest;
      if first.actor == actor {
        assert HasDelivery(deliveries, actor);
      } else {
        assert HasDelivery(deliveries, actor) <==> HasDelivery(rest, actor);
        assert ([first] + WithoutDeliveriesOf(rest, actor))[1..] == WithoutDeliveriesOf(rest, actor);
      }
    }
  }

  /** Purging a row loses nothing exactly when nothing queued is its, and no mailbox work of it is left. */
  lemma PurgeLosesNothingIff(st: Store, actor: Id)
    ensures NothingOwedIsLost(st, Purged(st, actor))
        <==> !HasDelivery(st.deliveries, actor) && ChatmailOps.SettledFor(st.mailOps, actor)
  {
    hide HasDelivery, WithoutFollowsOf, NotOwnedBy, WithoutDeliveriesOf;
    NoDeliveryToDrop(st.deliveries, actor);
    var after := Purged(st, actor);
    if !ChatmailOps.SettledFor(st.mailOps, actor) {
      var a :| a in st.mailOps && st.mailOps[a].actor == Some(actor) && st.mailOps[a].state == Pending;
      assert after.mailOps[a].actor == None;
    }
  }

  /** So a tombstoned row may go as soon as purging it loses nothing, and otherwise only once thirty days
      have passed since the erasure. */
  lemma PurgeableExactlyWhen(st: Store, actor: Id, now: int)
    ensures Purgeable(st, actor, now) <==>
      && actor in st.actors && st.actors[actor].erasedAt != None
      && (NothingOwedIsLost(st, Purged(st, actor)) || now > st.actors[actor].erasedAt.value + 30 * 86_400)
  {
    hide HasDelivery, Purged, NothingOwedIsLost, ChatmailOps.SettledFor;
    PurgeLosesNothingIff(st, actor);
  }

  /** What a purge takes of one list of rows: those of the purged actors. */
  ghost predicate Takes(st: Store, after: Store, gone: set<Id>) {
    && (forall r :: r in after.posts <==> r in st.posts && r.owner !in gone)
    && (forall r :: r in after.jobs <==> r in st.jobs && r.owner !in gone)
    && (forall r :: r in after.media <==> r in st.media && r.owner !in gone)
    && (forall r :: r in after.follows <==> r in st.follows && r.follower !in gone && r.following !in gone)
    && after.mailOps.Keys == st.mailOps.Keys
    && (forall a :: a in st.mailOps ==>
          after.mailOps[a] == if st.mailOps[a].actor.Some? && st.mailOps[a].actor.value in gone
                              then st.mailOps[a].(actor := None) else st.mailOps[a])
  }

  function Gone(due: seq<Id>, fails: Id -> bool): set<Id> {
    set id | id in due && !fails(id)
  }

  lemma GoneGrows(due: seq<Id>, fails: Id -> bool)
    requires due != [] && due[|due| - 1] !in due[..|due| - 1]
    ensures var n := |due| - 1;
      && due[n] !in Gone(due[..n], fails)
      && if fails(due[n]) then Gone(due, fails) == Gone(due[..n], fails)
         else
           && Gone(due, fails) == Gone(due[..n], fails) + {due[n]}
           && |Gone(due, fails)| == |Gone(due[..n], fails)| + 1
  {
    var n := |due| - 1;
    assert due == due[..n] + [due[n]];
    if fails(due[n]) {
      assert Gone(due, fails) == Gone(due[..n], fails);
    } else {
      assert Gone(due, fails) == Gone(due[..n], fails) + {due[n]};
    }
  }

  /** The row of an erased actor with nothing queued and no mailbox work left to try. */
  predicate Releasable(st: Store, actor: Id) {
    && actor in st.actors && st.actors[actor].erasedAt.Some?
    && !HasDelivery(st.deliveries, actor) && ChatmailOps.SettledFor(st.mailOps, actor)
  }

  /** Each of the list's accounts is, and none is listed twice. */
  predicate AreReleasable(st: Store, due: seq<Id>) {
    && (forall i :: 0 <= i < |due| ==> Releasable(st, due[i]))
    && (forall i, j :: 0 <= i < j < |due| ==> due[i] != due[j])
  }

  lemma LastReleasable(st: Store, due: seq<Id>)
    requires AreReleasable(st, due) && due != []
    ensures var n := |due| - 1;
      AreReleasable(st, due[..n]) && Releasable(st, due[n]) && due[n] !in due[..n]
  {
    hide Releasable;
  }

  /** What a purge over a list leaves, `gone` being the rows it could delete. */
  ghost predicate PurgedOnly(st: Store, after: Store, gone: set<Id>) {
    NothingOwedIsLost(st, after) && Takes(st, after, gone) && after.actors == st.actors - gone
  }

  /** A sweep none of whose rows is past the backstop loses nothing, takes every listed row that the
      database lets it delete with what belongs to it, and counts them. */
  lemma {:induction false} RetentionLosesNothing(st: Store, due: seq<Id>, fails: Id -> bool)
    requires AreReleasable(st, due)
    ensures var (after, count) := Retired(st, due, fails);
      PurgedOnly(st, after, Gone(due, fails)) && count == |Gone(due, fails)|
    decreases |due|
  {
    hide Purged, Releasable, AreReleasable;
    if due == [] {
      assert Gone(due, fails) == {};
    } else {
      hide Gone, PurgedOnly, Retired;
      var n := |due| - 1;
      LastReleasable(st, due);
      RetentionLosesNothing(st, due[..n], fails);
      GoneGrows(due, fails);
      RetiredStep(st, due, fails);
      OnePurged(st, Retired(st, due[..n], fails).0, due[n], Gone(due[..n], fails));
    }
  }

  lemma RetiredStep(st: Store, due: seq<Id>, fails: Id -> bool)
    requires due != []
    ensures var id := due[|due| - 1];
      var (before, count) := Retired(st, due[..|due| - 1], fails);
      Retired(st, due, fails) ==
        if !fails(id) && id in before.actors && before.actors[id].erasedAt.Some?
        then (Purged(before, id), count + 1) else (before, count)
  {
    hide Purged;
  }

  lemma OnePurged(st: Store, before: Store, actor: Id, gone: set<Id>)
    requires Releasable(st, actor) && PurgedOnly(st, before, gone) && actor !in gone
    ensures actor in before.actors && before.actors[actor].erasedAt.Some?
    ensures PurgedOnly(st, Purged(before, actor), gone + {actor})
  {
    hide HasDelivery, ChatmailOps.SettledFor, NothingOwedIsLost, Takes, WithoutFollowsOf, NotOwnedBy,
      WithoutDeliveriesOf, ChatmailOps.Orphaned;
    StillNothingLost(st, before, actor);
    StillTakes(st, before, actor, gone);
  }

  lemma StillTakes(st: Store, before: Store, actor: Id, gone: set<Id>)
    requires Takes(st, before, gone)
    ensures Takes(st, Purged(before, actor), gone + {actor})
  {
    NotOwnedByIs(before.posts, actor);
    NotOwnedByIs(before.jobs, actor);
    NotOwnedByIs(before.media, actor);
    WithoutFollowsIs(before.follows, actor);
  }

  lemma StillNothingLost(st: Store, before: Store, actor: Id)
    requires NothingOwedIsLost(st, before)
    requires !HasDelivery(st.deliveries, actor) && ChatmailOps.SettledFor(st.mailOps, actor)
    ensures NothingOwedIsLost(st, Purged(before, actor))
  {
    hide HasDelivery, WithoutFollowsOf, NotOwnedBy, WithoutDeliveriesOf;
    NoDeliveryToDrop(before.deliveries, actor);
  }

  /** No purge takes the row of an account that was not erased. */
  lemma {:induction false} LivingKept(st: Store, due: seq<Id>, fails: Id -> bool, actor: Id)
    requires actor in st.actors && st.actors[actor].erasedAt == None
    ensures var after := Retired(st, due, fails).0;
      actor in after.actors && after.actors[actor] == st.actors[actor]
    decreases |due|
  {
    hide WithoutFollowsOf, NotOwnedBy, WithoutDeliveriesOf, ChatmailOps.Orphaned;
    if due != [] { LivingKept(st, due[..|due| - 1], fails, actor); }
  }

  predicate KeepsTombstone(st: Store, actor: Id, erasedAt: int) {
    actor in st.actors && st.actors[actor].erasedAt == Some(erasedAt)
  }

  /** The erasure of an account queues a `Delete` for each follower's inbox, and in every later store that
      keeps the account's tombstone and still has that `Delete` in its queue, one given up on included,
      the row, and with it the key that signs the activity, is not to be purged before the backstop. */
  lemma DeleteOutlivesPurge(
    st: Store, backend: bool, actor: Id, f: Faults, now: int, inbox: string, next: Store, later: int)
    requires DatabaseWorks(f) && actor in st.actors && st.actors[actor].isLocal && st.actors[actor].erasedAt == None
    requires IsInboxOfFollower(st, actor, inbox) && later <= now + 30 * 86_400
    ensures var after := Erased(st, backend, actor, f, now).0;
      && Delivery(actor, inbox) in after.deliveries
      && KeepsTombstone(after, actor, now)
      && (KeepsTombstone(next, actor, now) && Delivery(actor, inbox) in next.deliveries ==>
            !Purgeable(next, actor, later))
  {
    hide FollowerInboxes, OwnedBy, NotOwnedBy, WithoutFollowsOf, WithoutDeliveriesOf, WithDeletes, Withdrawn,
      WithoutObjects, Documents, ChatmailOps.SettledFor;
    ErasurePromises(st, backend, actor, f, now);
    var after := Erased(st, backend, actor, f, now).0;
    assert CountOf(after.deliveries, Delivery(actor, inbox)) == 1;
  }
}
