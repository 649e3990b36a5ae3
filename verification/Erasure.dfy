/** Account erasure: what has to be read before the rows go, and what is owed once they have. */
module Erasure {
  import opened Wrappers
  import opened SearchQueue
  import ChatmailOps

  type Id = string

  datatype Actor = Actor(
    apId: string, isLocal: bool, sharedInbox: Option<string>, inbox: Option<string>,
    chatmail: Option<string>, deletionRequested: Option<int>, erasedAt: Option<int>)

  /** A row that belongs to an actor: a post, a job posting or a media object. */
  datatype Owned = Owned(id: string, owner: Id)

  datatype Follow = Follow(follower: Id, following: Id, accepted: bool)

  /** A queued `Delete`: its sender and the inbox it goes to. */
  datatype Delivery = Delivery(actor: Id, inbox: string)

  datatype Store = Store(
    actors: map<Id, Actor>, follows: seq<Follow>, posts: seq<Owned>, jobs: seq<Owned>, media: seq<Owned>,
    mailOps: ChatmailOps.Ops, deliveries: seq<Delivery>, objects: set<string>, search: Db)

  /** What goes wrong in one erasure: which reads fail, which writes fail, whether the process stops once
      the flag is cleared, and how each removal, queue write and object deletion goes. */
  datatype Faults = Faults(
    inboxesUnread: bool, postsUnread: bool, jobsUnread: bool, mediaUnread: bool, addressUnread: bool,
    mailboxUnrecorded: bool, tombstoneFails: bool, flagStays: bool, stops: bool,
    enqueues: string -> bool, deletesObject: string -> bool, removal: Key -> Removal)

  datatype EraseError = NotFound | NotLocal | Database | Stopped

  // ..... Reads .....

  function OwnedBy(rows: seq<Owned>, owner: Id): seq<string> {
    if rows == [] then []
    else (if rows[0].owner == owner then [rows[0].id] else []) + OwnedBy(rows[1..], owner)
  }

  function NotOwnedBy(rows: seq<Owned>, owner: Id): seq<Owned> {
    if rows == [] then []
    else (if rows[0].owner == owner then [] else [rows[0]]) + NotOwnedBy(rows[1..], owner)
  }

  function InboxOf(a: Actor): string {
    if a.sharedInbox.Some? then a.sharedInbox.value
    else if a.inbox.Some? then a.inbox.value
    else a.apId + "/inbox"
  }

  predicate IsFollowerInbox(actors: map<Id, Actor>, f: Follow, actor: Id) {
    f.following == actor && f.accepted && f.follower in actors
  }

  /** The distinct inboxes of the accepted followers, shared ones once. */
  function FollowerInboxes(actors: map<Id, Actor>, follows: seq<Follow>, actor: Id): (r: seq<string>)
    ensures forall i, j :: 0 <= i < j < |r| ==> r[i] != r[j]
  {
    if follows == [] then []
    else
      var rest := FollowerInboxes(actors, follows[1..], actor);
      var head := if IsFollowerInbox(actors, follows[0], actor) then [InboxOf(actors[follows[0].follower])] else [];
      if head != [] && head[0] !in rest then head + rest else rest
  }

  // ..... Writes .....

  function WithoutFollowsOf(follows: seq<Follow>, actor: Id): seq<Follow> {
    if follows == [] then []
    else
      var kept := if follows[0].follower == actor || follows[0].following == actor then [] else [follows[0]];
      kept + WithoutFollowsOf(follows[1..], actor)
  }

  function WithoutDeliveriesOf(deliveries: seq<Delivery>, actor: Id): seq<Delivery> {
    if deliveries == [] then []
    else (if deliveries[0].actor == actor then [] else [deliveries[0]]) + WithoutDeliveriesOf(deliveries[1..], actor)
  }

  /** The one transaction that clears the actor and deletes what depends on it. */
  function Tombstoned(st: Store, actor: Id, now: int): Store
    requires actor in st.actors
  {
    var a := st.actors[actor];
    st.(actors := st.actors[actor := a.(chatmail := None,
                                        erasedAt := if a.erasedAt.Some? then a.erasedAt else Some(now))],
        follows := WithoutFollowsOf(st.follows, actor),
        posts := NotOwnedBy(st.posts, actor),
        jobs := NotOwnedBy(st.jobs, actor),
        media := NotOwnedBy(st.media, actor),
        deliveries := WithoutDeliveriesOf(st.deliveries, actor))
  }

  function WithoutObjects(objects: set<string>, keys: seq<string>, f: Faults): set<string> {
    if keys == [] then objects
    else
      var before := WithoutObjects(objects, keys[..|keys| - 1], f);
      if f.deletesObject(keys[|keys| - 1]) then before - {keys[|keys| - 1]} else before
  }

  function WithDeletes(deliveries: seq<Delivery>, actor: Id, inboxes: seq<string>, f: Faults): seq<Delivery> {
    if inboxes == [] then deliveries
    else
      var before := WithDeletes(deliveries, actor, inboxes[..|inboxes| - 1], f);
      var inbox := inboxes[|inboxes| - 1];
      if f.enqueues(inbox) then before + [Delivery(actor, inbox)] else before
  }

  function KeysIn(index: string, ids: seq<string>): seq<Key> {
    seq(|ids|, i requires 0 <= i < |ids| => Key(index, ids[i]))
  }

  /** The documents an erasure withdraws. */
  function Documents(actor: Id, posts: seq<string>, jobs: seq<string>): seq<Key> {
    [Key("profiles", actor)] + KeysIn("posts", posts) + KeysIn("jobs", jobs)
  }

  function Withdrawn(db: Db, backend: bool, keys: seq<Key>, f: Faults, now: int): Db {
    if keys == [] then db
    else
      var key := keys[|keys| - 1];
      RemovedDurably(Withdrawn(db, backend, keys[..|keys| - 1], f, now), backend, key, now, f.removal(key))
  }

  /** The mailbox's deletion is put on record before anything is erased. */
  function Owing(st: Store, actor: Id, f: Faults, now: int): Store {
    var address := if f.addressUnread || actor !in st.actors then None else st.actors[actor].chatmail;
    if address.Some? && !f.mailboxUnrecorded
    then st.(mailOps := ChatmailOps.Owed(st.mailOps, actor, address.value, now)) else st
  }

  /** One erasure, in the order its steps are made. */
  function Erased(st: Store, backend: bool, actor: Id, f: Faults, now: int): (Store, Option<EraseError>) {
    var inboxes := if f.inboxesUnread then [] else FollowerInboxes(st.actors, st.follows, actor);
    var posts := if f.postsUnread then [] else OwnedBy(st.posts, actor);
    var jobs := if f.jobsUnread then [] else OwnedBy(st.jobs, actor);
    var media := if f.mediaUnread then [] else OwnedBy(st.media, actor);
    var owed := Owing(st, actor, f, now);
    if actor !in owed.actors then (owed, Some(NotFound))
    else if !owed.actors[actor].isLocal then (owed, Some(NotLocal))
    else if f.tombstoneFails then (owed, Some(Database))
    else Settled(Tombstoned(owed, actor, now), backend, actor, inboxes, posts, jobs, media, f, now)
  }

  /** What follows the tombstone, from what was read before it. */
  function Settled(gone: Store, backend: bool, actor: Id, inboxes: seq<string>, posts: seq<string>,
                   jobs: seq<string>, media: seq<string>, f: Faults, now: int): (Store, Option<EraseError>)
    requires actor in gone.actors
  {
    var cleared := gone.(objects := WithoutObjects(gone.objects, media, f));
    if f.flagStays then (cleared, Some(Database))
    else
      var retired := cleared.(actors := cleared.actors[actor := cleared.actors[actor].(deletionRequested := None)]);
      if f.stops then (retired, Some(Stopped))
      else
        (retired.(deliveries := WithDeletes(retired.deliveries, actor, inboxes, f),
                  search := Withdrawn(retired.search, backend, Documents(actor, posts, jobs), f, now)),
         None)
  }

  class Instance {
    var actors: map<Id, Actor>
    var follows: seq<Follow>
    var posts: seq<Owned>
    var jobs: seq<Owned>
    var media: seq<Owned>
    var deliveries: seq<Delivery>
    var objects: set<string>
    const mail: ChatmailOps.Ledger
    const queue: Queue
    const search: Index?

    constructor (mail: ChatmailOps.Ledger, queue: Queue, search: Index?)
      ensures this.mail == mail && this.queue == queue && this.search == search
      ensures actors == map[] && follows == [] && posts == [] && jobs == [] && media == []
      ensures deliveries == [] && objects == {}
    {
      this.mail, this.queue, this.search := mail, queue, search;
      actors, follows, posts, jobs, media := map[], [], [], [], [];
      deliveries, objects := [], {};
    }

    function Data(): Store
      reads this, mail, queue, search
    {
      Store(actors, follows, posts, jobs, media, mail.ops, deliveries, objects, Db(queue.rows, DocsOf(search)))
    }

    method RecordMailbox(actor: Id, f: Faults, now: int)
      modifies mail
      ensures Data() == Owing(old(Data()), actor, f, now)
    {
      var address := if f.addressUnread || actor !in actors then None else actors[actor].chatmail;
      if address.Some? && !f.mailboxUnrecorded {
        mail.EnqueueDelete(actor, address.value, now);
      }
    }

    method Tombstone(actor: Id, fails: bool, now: int) returns (r: Option<EraseError>)
      modifies this`actors, this`follows, this`posts, this`jobs, this`media, this`deliveries
      ensures r == if actor !in old(actors) then Some(NotFound)
                   else if !old(actors)[actor].isLocal then Some(NotLocal)
                   else if fails then Some(Database) else None
      ensures r.None? ==> actor in actors
      ensures Data() == if r.None? then Tombstoned(old(Data()), actor, now) else old(Data())
    {
      if actor !in actors { return Some(NotFound); }
      var a := actors[actor];
      if !a.isLocal { return Some(NotLocal); }
      if fails { return Some(Database); }
      actors := actors[actor := a.(chatmail := None, erasedAt := if a.erasedAt.Some? then a.erasedAt else Some(now))];
      follows := WithoutFollowsOf(follows, actor);
      media := NotOwnedBy(media, actor);
      posts := NotOwnedBy(posts, actor);
      jobs := NotOwnedBy(jobs, actor);
      deliveries := WithoutDeliveriesOf(deliveries, actor);
      r := None;
    }

    /** The whole erasure of one account, as the specification has it for every combination of faults. */
    method EraseActor(actor: Id, f: Faults, now: int) returns (r: Option<EraseError>)
      modifies this, mail, queue, search
      ensures (Data(), r) == Erased(old(Data()), search != null, actor, f, now)
    {
      hide Tombstoned, Settled, FollowerInboxes, OwnedBy, ChatmailOps.Owed, Owing, DocsOf;
      // What the tombstone will take away is read first.
      var inboxes := if f.inboxesUnread then [] else FollowerInboxes(actors, follows, actor);
      var indexedPosts := if f.postsUnread then [] else OwnedBy(posts, actor);
      var indexedJobs := if f.jobsUnread then [] else OwnedBy(jobs, actor);
      var mediaKeys := if f.mediaUnread then [] else OwnedBy(media, actor);
      RecordMailbox(actor, f, now);
      r := Tombstone(actor, f.tombstoneFails, now);
      if r.Some? { return; }
      r := Settle(actor, inboxes, indexedPosts, indexedJobs, mediaKeys, f, now);
    }

    // What follows the tombstone.
    method Settle(actor: Id, inboxes: seq<string>, indexedPosts: seq<string>, indexedJobs: seq<string>,
                  mediaKeys: seq<string>, f: Faults, now: int) returns (r: Option<EraseError>)
      requires actor in actors
      modifies this`objects, this`actors, this`deliveries, queue, search
      ensures (Data(), r)
           == Settled(old(Data()), search != null, actor, inboxes, indexedPosts, indexedJobs, mediaKeys, f, now)
    {
      hide WithDeletes, Withdrawn, Documents;
      // The objects read before the tombstone; their rows have gone with it.
      DeleteObjects(mediaKeys, f);
      // From here on the account is due no more.
      if f.flagStays { return Some(Database); }
      actors := actors[actor := actors[actor].(deletionRequested := None)];
      if f.stops { return Some(Stopped); }
      Broadcast(actor, inboxes, f);
      Withdraw(Documents(actor, indexedPosts, indexedJobs), f, now);
      r := None;
    }

    method DeleteObjects(keys: seq<string>, f: Faults)
      modifies this`objects
      ensures objects == WithoutObjects(old(objects), keys, f)
    {
      ghost var before := objects;
      for i := 0 to |keys|
        invariant objects == WithoutObjects(before, keys[..i], f)
      {
        assert keys[..i + 1][..i] == keys[..i];
        if f.deletesObject(keys[i]) {
          objects := objects - {keys[i]};
        }
      }
      assert keys[..|keys|] == keys;
    }

    method Broadcast(actor: Id, inboxes: seq<string>, f: Faults)
      modifies this`deliveries
      ensures deliveries == WithDeletes(old(deliveries), actor, inboxes, f)
    {
      ghost var before := deliveries;
      for i := 0 to |inboxes|
        invariant deliveries == WithDeletes(before, actor, inboxes[..i], f)
      {
        assert inboxes[..i + 1][..i] == inboxes[..i];
        if f.enqueues(inboxes[i]) {
          deliveries := deliveries + [Delivery(actor, inboxes[i])];
        }
      }
      assert inboxes[..|inboxes|] == inboxes;
    }

    method Withdraw(keys: seq<Key>, f: Faults, now: int)
      modifies queue, search
      ensures Db(queue.rows, DocsOf(search))
           == Withdrawn(Db(old(queue.rows), old(DocsOf(search))), search != null, keys, f, now)
    {
      ghost var db := Db(queue.rows, DocsOf(search));
      for i := 0 to |keys|
        invariant Db(queue.rows, DocsOf(search)) == Withdrawn(db, search != null, keys[..i], f, now)
      {
        assert keys[..i + 1][..i] == keys[..i];
        RemoveDurably(queue, search, keys[i], now, f.removal(keys[i]));
      }
      assert keys[..|keys|] == keys;
    }

    /** Tries each listed account in turn, whatever came of the one before, and counts the successes. */
    method Sweep(due: seq<Id>, faults: Id -> Faults, now: int) returns (erased: nat)
      modifies this, mail, queue, search
      ensures (Data(), erased) == Swept(old(Data()), search != null, due, faults, now)
    {
      hide Erased, DocsOf;
      erased := 0;
      ghost var st := Data();
      for i := 0 to |due|
        invariant (Data(), erased) == Swept(st, search != null, due[..i], faults, now)
      {
        assert due[..i + 1][..i] == due[..i];
        var r := EraseActor(due[i], faults(due[i]), now);
        if r.None? { erased := erased + 1; }
      }
      assert due[..|due|] == due;
    }

    /** Hard-delete the listed tombstoned actors. */
    method PurgeRetained(due: seq<Id>, fails: Id -> bool) returns (purged: nat)
      modifies this, mail
      ensures (Data(), purged) == Retired(old(Data()), due, fails)
    {
      hide WithoutFollowsOf, NotOwnedBy, WithoutDeliveriesOf, ChatmailOps.Orphaned;
      purged := 0;
      ghost var st := Data();
      for i := 0 to |due|
        invariant (Data(), purged) == Retired(st, due[..i], fails)
      {
        assert due[..i + 1][..i] == due[..i];
        if !fails(due[i]) && due[i] in actors && actors[due[i]].erasedAt.Some? {
          actors := actors - {due[i]};
          follows := WithoutFollowsOf(follows, due[i]);
          posts := NotOwnedBy(posts, due[i]);
          jobs := NotOwnedBy(jobs, due[i]);
          media := NotOwnedBy(media, due[i]);
          deliveries := WithoutDeliveriesOf(deliveries, due[i]);
          mail.ops := ChatmailOps.Orphaned(mail.ops, due[i]);
          purged := purged + 1;
        }
      }
      assert due[..|due|] == due;
    }
  }

  // ..... Retention .....

  const RETENTION_DAYS := 30

  predicate HasDelivery(deliveries: seq<Delivery>, actor: Id) {
    exists d :: d in deliveries && d.actor == actor
  }

  /** The row of an erased actor may go when nothing queued needs its key and no mailbox work is left
      to try; or, as a backstop, after thirty days. */
  predicate Purgeable(st: Store, actor: Id, now: int) {
    && actor in st.actors && st.actors[actor].erasedAt.Some?
    && (|| (!HasDelivery(st.deliveries, actor) && ChatmailOps.SettledFor(st.mailOps, actor))
        || st.actors[actor].erasedAt.value < now - RETENTION_DAYS * DAY)
  }

  /** The row is deleted, and with it what refers to it; mailbox work loses the link only. */
  function Purged(st: Store, actor: Id): Store {
    st.(actors := st.actors - {actor},
        follows := WithoutFollowsOf(st.follows, actor),
        posts := NotOwnedBy(st.posts, actor),
        jobs := NotOwnedBy(st.jobs, actor),
        media := NotOwnedBy(st.media, actor),
        deliveries := WithoutDeliveriesOf(st.deliveries, actor),
        mailOps := ChatmailOps.Orphaned(st.mailOps, actor))
  }

  /** Each listed row purged in turn; `fails` says which deletions the database refuses. */
  function Retired(st: Store, due: seq<Id>, fails: Id -> bool): (Store, nat) {
    if due == [] then (st, 0)
    else
      var n := |due| - 1;
      var (before, count) := Retired(st, due[..n], fails);
      if !fails(due[n]) && due[n] in before.actors && before.actors[due[n]].erasedAt.Some?
      then (Purged(before, due[n]), count + 1) else (before, count)
  }

  /** The account is local and asked to be deleted more than `grace` days ago. */
  predicate GraceOver(a: Actor, grace: int, now: int) {
    a.isLocal && a.deletionRequested.Some? && a.deletionRequested.value < now - grace * DAY
  }

  const DAY := 86_400

  function Swept(st: Store, backend: bool, due: seq<Id>, faults: Id -> Faults, now: int): (Store, nat) {
    if due == [] then (st, 0)
    else
      var n := |due| - 1;
      var (before, count) := Swept(st, backend, due[..n], faults, now);
      var (after, r) := Erased(before, backend, due[n], faults(due[n]), now);
      (after, if r.None? then count + 1 else count)
  }
}
