/** The sweep that brings stored remote HTML up to the current sanitiser policy. */
module Backfill {
  import opened Wrappers

  /** A wire record, as stored. */
  type Wire = string

  datatype Content = Content(html: string, md: Option<string>)

  /** The current policy: its version, whether a record carries content, what is derived from one
      that does, and how stored markup is cleaned. */
  datatype Policy = Policy(version: int, carries: Wire -> bool, extract: Wire -> Content, clean: string -> string)

  datatype Actor = Actor(isLocal: bool, summary: Option<string>, version: int)
  datatype Post = Post(author: nat, wire: Wire, html: string, md: Option<string>, version: int)

  /** The two tables, in the order of their keys; an author is an actor's place. */
  datatype Tables = Tables(actors: seq<Actor>, posts: seq<Post>)

  const BATCH := 500

  // ..... What is behind, and what it becomes .....

  predicate IsStaleActor(a: Actor, p: Policy) { a.version < p.version && !a.isLocal }

  predicate IsStalePost(t: Tables, post: Post, p: Policy) {
    post.version < p.version && post.author < |t.actors| && !t.actors[post.author].isLocal
  }

  function Recleaned(a: Actor, p: Policy): Actor {
    a.(summary := if a.summary.Some? then Some(p.clean(a.summary.value)) else None, version := p.version)
  }

  /** The column of Markdown is rewritten only when it was derived afresh. */
  function Rederived(post: Post, p: Policy): Post {
    if p.carries(post.wire) then
      var content := p.extract(post.wire);
      post.(html := content.html, md := content.md, version := p.version)
    else post.(html := p.clean(post.html), version := p.version)
  }

  /** Where the sweep is going: every stale row brought up to date, every other row as it was. */
  function Target(t: Tables, p: Policy): Tables {
    Tables(seq(|t.actors|, i requires 0 <= i < |t.actors| =>
             if IsStaleActor(t.actors[i], p) then Recleaned(t.actors[i], p) else t.actors[i]),
           seq(|t.posts|, i requires 0 <= i < |t.posts| =>
             if IsStalePost(t, t.posts[i], p) then Rederived(t.posts[i], p) else t.posts[i]))
  }

  function StalePosts(t: Tables, p: Policy): (r: seq<bool>)
    ensures |r| == |t.posts|
  {
    seq(|t.posts|, i requires 0 <= i < |t.posts| => IsStalePost(t, t.posts[i], p))
  }

  function StaleActors(t: Tables, p: Policy): (r: seq<bool>)
    ensures |r| == |t.actors|
  {
    seq(|t.actors|, i requires 0 <= i < |t.actors| => IsStaleActor(t.actors[i], p))
  }

  /** The places that are marked, from one on. */
  function Marked(flags: seq<bool>, from: nat): (r: seq<nat>)
    requires from <= |flags|
    ensures forall i :: 0 <= i < |r| ==> from <= r[i] < |flags| && flags[r[i]]
    decreases |flags| - from
  {
    if from == |flags| then []
    else (if flags[from] then [from] else []) + Marked(flags, from + 1)
  }

  /** A batch's work list: the first so many of the marked places. */
  function WorkList(flags: seq<bool>): seq<nat> {
    var all := Marked(flags, 0);
    if |all| <= BATCH then all else all[..BATCH]
  }

  lemma {:induction false} MarkedLater(flags: seq<bool>, i: nat, from: nat)
    requires i < from <= |flags|
    ensures Marked(flags[i := false], from) == Marked(flags, from)
    decreases |flags| - from
  {
    if from < |flags| { MarkedLater(flags, i, from + 1); }
  }

  lemma {:induction false} FirstDone(flags: seq<bool>, from: nat)
    requires from <= |flags| && Marked(flags, from) != []
    ensures var all := Marked(flags, from); Marked(flags[all[0] := false], from) == all[1..]
    decreases |flags| - from
  {
    if flags[from] {
      MarkedLater(flags, from, from + 1);
    } else {
      FirstDone(flags, from + 1);
    }
  }

  lemma {:induction false} OneDone(flags: seq<bool>, from: nat, i: nat)
    requires from <= i < |flags| && flags[i]
    ensures |Marked(flags[i := false], from)| == |Marked(flags, from)| - 1
    decreases |flags| - from
  {
    if from == i {
      MarkedLater(flags, i, i + 1);
    } else {
      OneDone(flags, from + 1, i);
    }
  }

  lemma {:induction false} NoneMarked(flags: seq<bool>, from: nat, i: nat)
    requires from <= i < |flags| && Marked(flags, from) == []
    ensures !flags[i]
    decreases |flags| - from
  {
    if from < i { NoneMarked(flags, from + 1, i); }
  }

  lemma {:induction false} NoMarks(flags: seq<bool>, from: nat)
    requires from <= |flags| && forall i :: from <= i < |flags| ==> !flags[i]
    ensures Marked(flags, from) == []
    decreases |flags| - from
  {
    if from < |flags| { NoMarks(flags, from + 1); }
  }

  function MarksFrom(flags: seq<bool>, from: nat): set<nat> {
    set i: nat | from <= i < |flags| && flags[i]
  }

  lemma MarksStep(flags: seq<bool>, from: nat)
    requires from < |flags|
    ensures from !in MarksFrom(flags, from + 1)
    ensures MarksFrom(flags, from) == MarksFrom(flags, from + 1) + if flags[from] then {from} else {}
  {
  }

  lemma {:induction false} MarkedCount(flags: seq<bool>, from: nat)
    requires from <= |flags|
    ensures |Marked(flags, from)| == |MarksFrom(flags, from)|
    decreases |flags| - from
  {
    if from == |flags| {
      assert MarksFrom(flags, from) == {};
    } else {
      hide MarksFrom;
      MarkedCount(flags, from + 1);
      MarksStep(flags, from);
    }
  }

  lemma {:induction false} MarkedHas(flags: seq<bool>, from: nat, i: nat)
    requires from <= i < |flags| && flags[i]
    ensures i in Marked(flags, from)
    decreases |flags| - from
  {
    if from < i { MarkedHas(flags, from + 1, i); }
  }

  predicate Increasing(r: seq<nat>) {
    forall j, k :: 0 <= j < k < |r| ==> r[j] < r[k]
  }

  lemma IncreasingFrom(x: nat, rest: seq<nat>)
    requires Increasing(rest) && forall j :: 0 <= j < |rest| ==> x < rest[j]
    ensures Increasing([x] + rest)
  {
  }

  lemma {:induction false} MarkedInOrder(flags: seq<bool>, from: nat)
    requires from <= |flags|
    ensures Increasing(Marked(flags, from))
    decreases |flags| - from
  {
    if from < |flags| {
      hide Increasing;
      MarkedInOrder(flags, from + 1);
      var rest := Marked(flags, from + 1);
      IncreasingFrom(from, rest);
      assert [] + rest == rest;
    } else {
      assert Increasing([]);
    }
  }

  /** A batch takes the first five hundred of the marked places, or all when there are fewer. */
  lemma WorkListIs(flags: seq<bool>)
    ensures var work := WorkList(flags);
      && Increasing(work) && |work| == (if |MarksFrom(flags, 0)| < 500 then |MarksFrom(flags, 0)| else 500)
      && (forall i :: i in work ==> i < |flags| && flags[i])
      && (forall i, k :: 0 <= i < |flags| && flags[i] && i !in work && k in work ==> k < i)
  {
    hide MarksFrom, Increasing;
    MarkedCount(flags, 0);
    MarkedInOrder(flags, 0);
    var all := Marked(flags, 0);
    var n := if |all| <= 500 then |all| else 500;
    assert WorkList(flags) == all[..n];
    IncreasingPrefix(all, n);
    forall i, k | 0 <= i < |flags| && flags[i] && i !in all[..n] && k in all[..n]
      ensures k < i
    {
      MarkedHas(flags, 0, i);
      PrefixFirst(all, n, i, k);
    }
  }

  lemma IncreasingPrefix(r: seq<nat>, n: nat)
    requires Increasing(r) && n <= |r|
    ensures Increasing(r[..n])
  {
  }

  lemma PrefixFirst(r: seq<nat>, n: nat, i: nat, k: nat)
    requires Increasing(r) && n <= |r| && i in r && i !in r[..n] && k in r[..n]
    ensures k < i
  {
    var a :| 0 <= a < |r| && r[a] == i;
    var b :| 0 <= b < n && r[..n][b] == k;
    assert forall x :: 0 <= x < n ==> r[..n][x] == r[x];
  }

  /** The remote posts that an older policy made. */
  function StalePlaces(t: Tables, p: Policy): set<nat> {
    set i: nat | 0 <= i < |t.posts| && t.posts[i].version < p.version
                 && t.posts[i].author < |t.actors| && !t.actors[t.posts[i].author].isLocal
  }

  function StaleActorPlaces(t: Tables, p: Policy): set<nat> {
    set i: nat | 0 <= i < |t.actors| && t.actors[i].version < p.version && !t.actors[i].isLocal
  }

  lemma StaleCounts(t: Tables, p: Policy)
    ensures |Marked(StalePosts(t, p), 0)| == |StalePlaces(t, p)|
    ensures |Marked(StaleActors(t, p), 0)| == |StaleActorPlaces(t, p)|
  {
    hide Marked;
    MarkedCount(StalePosts(t, p), 0);
    MarkedCount(StaleActors(t, p), 0);
    assert MarksFrom(StalePosts(t, p), 0) == StalePlaces(t, p);
    assert MarksFrom(StaleActors(t, p), 0) == StaleActorPlaces(t, p);
  }

  /** A stale post ends with the content of its wire record, or, when that carries none, with its own
      markup cleaned and its Markdown kept; any other post stays. */
  ghost predicate PostIs(before: Post, after: Post, stale: bool, p: Policy) {
    && after.author == before.author && after.wire == before.wire
    && if !stale then after == before
       else
         && after.version == p.version
         && if p.carries(before.wire)
            then after.html == p.extract(before.wire).html && after.md == p.extract(before.wire).md
            else after.html == p.clean(before.html) && after.md == before.md
  }

  /** A stale actor ends with its summary, if it has one, cleaned. */
  ghost predicate ActorIs(before: Actor, after: Actor, stale: bool, p: Policy) {
    && after.isLocal == before.isLocal
    && if !stale then after == before
       else
         && after.version == p.version
         && (before.summary == None <==> after.summary == None)
         && (before.summary.Some? ==> after.summary == Some(p.clean(before.summary.value)))
  }

  ghost predicate IsUpToDate(start: Tables, end: Tables, p: Policy) {
    && |end.posts| == |start.posts| && |end.actors| == |start.actors|
    && (forall i :: 0 <= i < |start.posts| ==> PostIs(start.posts[i], end.posts[i], i in StalePlaces(start, p), p))
    && (forall i :: 0 <= i < |start.actors| ==>
          ActorIs(start.actors[i], end.actors[i], i in StaleActorPlaces(start, p), p))
  }

  /** The target is the one pair of tables that is up to date with the start. */
  lemma TargetIs(start: Tables, end: Tables, p: Policy)
    ensures IsUpToDate(start, end, p) <==> end == Target(start, p)
  {
    var target := Target(start, p);
    assert IsUpToDate(start, target, p);
    if IsUpToDate(start, end, p) {
      assert forall i :: 0 <= i < |start.posts| ==> end.posts[i] == target.posts[i];
      assert forall i :: 0 <= i < |start.actors| ==> end.actors[i] == target.actors[i];
      assert end.posts == target.posts && end.actors == target.actors;
    }
  }

  // ..... One row at a time .....

  function PostDone(t: Tables, i: nat, p: Policy): Tables
    requires i < |t.posts|
  {
    t.(posts := t.posts[i := Rederived(t.posts[i], p)])
  }

  function ActorDone(t: Tables, i: nat, p: Policy): Tables
    requires i < |t.actors|
  {
    t.(actors := t.actors[i := Recleaned(t.actors[i], p)])
  }

  lemma PostDoneIs(t: Tables, i: nat, p: Policy)
    requires i < |t.posts|
    ensures var t' := PostDone(t, i, p);
      && StalePosts(t', p) == StalePosts(t, p)[i := false]
      && StaleActors(t', p) == StaleActors(t, p)
      && (StalePosts(t, p)[i] ==> Target(t', p) == Target(t, p) && Target(t, p).posts[i] == t'.posts[i])
  {
  }

  lemma ActorDoneIs(t: Tables, i: nat, p: Policy)
    requires i < |t.actors|
    ensures var t' := ActorDone(t, i, p);
      && StalePosts(t', p) == StalePosts(t, p)
      && StaleActors(t', p) == StaleActors(t, p)[i := false]
      && (StaleActors(t, p)[i] ==> Target(t', p) == Target(t, p) && Target(t, p).actors[i] == t'.actors[i])
  {
  }

  /** On the way from one state to its target: every row is as it was or as it is to be. */
  ghost predicate OnTheWay(start: Tables, t: Tables, p: Policy) {
    && Target(t, p) == Target(start, p)
    && |t.actors| == |start.actors| && |t.posts| == |start.posts|
    && (forall i :: 0 <= i < |t.actors| ==> t.actors[i] == start.actors[i] || t.actors[i] == Target(start, p).actors[i])
    && (forall i :: 0 <= i < |t.posts| ==> t.posts[i] == start.posts[i] || t.posts[i] == Target(start, p).posts[i])
  }

  lemma PostStaysOnTheWay(start: Tables, t: Tables, i: nat, p: Policy)
    requires OnTheWay(start, t, p) && i < |t.posts| && StalePosts(t, p)[i]
    ensures OnTheWay(start, PostDone(t, i, p), p)
  {
    hide Target, StalePosts, StaleActors, Rederived;
    PostDoneIs(t, i, p);
  }

  lemma ActorStaysOnTheWay(start: Tables, t: Tables, i: nat, p: Policy)
    requires OnTheWay(start, t, p) && i < |t.actors| && StaleActors(t, p)[i]
    ensures OnTheWay(start, ActorDone(t, i, p), p)
  {
    hide Target, StalePosts, StaleActors, Recleaned;
    ActorDoneIs(t, i, p);
  }

  lemma OnTheWayFurther(start: Tables, t: Tables, t': Tables, p: Policy)
    requires OnTheWay(start, t, p) && OnTheWay(t, t', p)
    ensures OnTheWay(start, t', p)
  {
    hide Target;
  }

  lemma AtTheStart(t: Tables, p: Policy)
    ensures OnTheWay(t, t, p)
  {
  }

  /** How many rows are behind. */
  function Behind(t: Tables, p: Policy): nat {
    |Marked(StalePosts(t, p), 0)| + |Marked(StaleActors(t, p), 0)|
  }

  /** Where nothing is behind, the tables are at their target. */
  lemma NoneBehind(t: Tables, p: Policy)
    requires Behind(t, p) == 0
    ensures Target(t, p) == t
  {
    hide Target;
    AtTheStart(t, p);
    PostsArrived(t, t, p);
    ActorsArrived(t, t, p);
  }

  /** At the target nothing is behind, so that a second sweep has nothing to do. */
  lemma TargetIsNotBehind(t: Tables, p: Policy)
    ensures Behind(Target(t, p), p) == 0
  {
    var end := Target(t, p);
    assert forall i :: 0 <= i < |end.actors| ==> end.actors[i].isLocal == t.actors[i].isLocal;
    assert forall i :: 0 <= i < |end.posts| ==> end.posts[i].author == t.posts[i].author;
    assert forall i :: 0 <= i < |end.posts| ==> !StalePosts(end, p)[i];
    assert forall i :: 0 <= i < |end.actors| ==> !StaleActors(end, p)[i];
    hide Target, StalePosts, StaleActors;
    NoMarks(StalePosts(end, p), 0);
    NoMarks(StaleActors(end, p), 0);
  }

  // ..... Any order, any number of sweeps .....

  datatype Step = PostRow(i: nat) | ActorRow(i: nat)

  /** The steps bring stale rows up to date, one at a time and in any order, as sweeps that are
      stopped and started again, or run side by side, may do between them. */
  ghost predicate IsSweep(t: Tables, steps: seq<Step>, p: Policy)
    decreases |steps|
  {
    steps == [] ||
    (match steps[0]
     case PostRow(i) => i < |t.posts| && StalePosts(t, p)[i] && IsSweep(PostDone(t, i, p), steps[1..], p)
     case ActorRow(i) => i < |t.actors| && StaleActors(t, p)[i] && IsSweep(ActorDone(t, i, p), steps[1..], p))
  }

  ghost function Swept(t: Tables, steps: seq<Step>, p: Policy): Tables
    requires IsSweep(t, steps, p)
    decreases |steps|
  {
    if steps == [] then t
    else
      match steps[0]
      case PostRow(i) => Swept(PostDone(t, i, p), steps[1..], p)
      case ActorRow(i) => Swept(ActorDone(t, i, p), steps[1..], p)
  }

  /** However a sweep is cut up and ordered, it takes at most as many steps as there are stale rows,
      every state on its way has only finished rows and rows as they were, and when it has taken that
      many it is at the target. */
  lemma {:induction false} AnySweepConverges(t: Tables, steps: seq<Step>, p: Policy)
    requires IsSweep(t, steps, p)
    ensures OnTheWay(t, Swept(t, steps, p), p)
    ensures |steps| == Behind(t, p) - Behind(Swept(t, steps, p), p)
    ensures |steps| == Behind(t, p) ==> Swept(t, steps, p) == Target(t, p)
    decreases |steps|
  {
    hide Target, StalePosts, StaleActors, Rederived, Recleaned, Marked, OnTheWay;
    if steps == [] {
      AtTheStart(t, p);
      if Behind(t, p) == 0 { NoneBehind(t, p); }
    } else {
      AtTheStart(t, p);
      match steps[0] {
        case PostRow(i) =>
          PostDoneIs(t, i, p);
          OneDone(StalePosts(t, p), 0, i);
          PostStaysOnTheWay(t, t, i, p);
          AnySweepConverges(PostDone(t, i, p), steps[1..], p);
          OnTheWayFurther(t, PostDone(t, i, p), Swept(t, steps, p), p);
        case ActorRow(i) =>
          ActorDoneIs(t, i, p);
          OneDone(StaleActors(t, p), 0, i);
          ActorStaysOnTheWay(t, t, i, p);
          AnySweepConverges(ActorDone(t, i, p), steps[1..], p);
          OnTheWayFurther(t, ActorDone(t, i, p), Swept(t, steps, p), p);
      }
    }
  }

  /** In every state of every sweep: nothing a local user wrote is touched, a post keeps its author and
      its wire record, and its Markdown is rewritten only from a wire record that carries content. */
  lemma SweepIsSafe(t: Tables, steps: seq<Step>, p: Policy, i: nat)
    requires IsSweep(t, steps, p) && i < |t.posts| && t.posts[i].author < |t.actors|
    ensures var end := Swept(t, steps, p);
      && i < |end.posts|
      && var before, after := t.posts[i], end.posts[i];
      && (t.actors[before.author].isLocal ==> after == before)
      && (after.md != before.md ==> p.carries(before.wire) && after.md == p.extract(before.wire).md)
      && after.wire == before.wire && after.author == before.author
  {
    AnySweepConverges(t, steps, p);
  }

  // ..... The sweep .....

  /** How a statement ends: done, refused by the database, or never, the process having been stopped. */
  datatype Fate = Done | Fails | Stops

  datatype Outcome = Updated(n: nat) | Error | Stopped

  class Database {
    var actors: seq<Actor>
    var posts: seq<Post>
    /** How many statements have been issued. */
    var issued: nat

    constructor (t: Tables)
      ensures Rows() == t && issued == 0
    {
      actors, posts, issued := t.actors, t.posts, 0;
    }

    function Rows(): Tables
      reads this
    {
      Tables(actors, posts)
    }

    /** The first five hundred stale posts are brought to their target, in order, up to the statement that
        does not succeed; no other row moves. */
    method PostsBatch(p: Policy, fate: nat -> Fate) returns (r: Outcome)
      modifies this
      ensures OnTheWay(old(Rows()), Rows(), p)
      ensures StaleActors(Rows(), p) == old(StaleActors(Rows(), p))
      ensures |Marked(StalePosts(Rows(), p), 0)| <= |old(Marked(StalePosts(Rows(), p), 0))|
      ensures r.Updated? ==> r.n == |old(WorkList(StalePosts(Rows(), p)))|
      ensures r.Updated? ==> Marked(StalePosts(Rows(), p), 0) == old(Marked(StalePosts(Rows(), p), 0))[r.n..]
      ensures r.Updated? ==> issued == old(issued) + 1 + r.n
      ensures issued > old(issued) && forall k :: old(issued) < k < issued ==> fate(k) == Done
      ensures fate(issued) == match r case Updated(_) => Done case Error => Fails case Stopped => Stops
    {
      hide Target, StalePosts, StaleActors, Marked, Rederived, OnTheWay;
      AtTheStart(Rows(), p);
      issued := issued + 1;
      if fate(issued) != Done { return if fate(issued).Fails? then Error else Stopped; }
      ghost var all := Marked(StalePosts(Rows(), p), 0);
      var work := WorkList(StalePosts(Rows(), p));
      ghost var before := Rows();
      for k := 0 to |work|
        invariant |posts| == |before.posts|
        invariant Marked(StalePosts(Rows(), p), 0) == all[k..]
        invariant StaleActors(Rows(), p) == StaleActors(before, p)
        invariant OnTheWay(before, Rows(), p)
        invariant issued == old(issued) + 1 + k
        invariant forall j :: old(issued) < j <= issued ==> fate(j) == Done
      {
        issued := issued + 1;
        if fate(issued) != Done { return if fate(issued).Fails? then Error else Stopped; }
        var i := work[k];
        assert i == all[k..][0];
        PostDoneIs(Rows(), i, p);
        PostStaysOnTheWay(before, Rows(), i, p);
        FirstDone(StalePosts(Rows(), p), 0);
        posts := posts[i := Rederived(posts[i], p)];
      }
      r := Updated(|work|);
    }

    /** As for posts, on the actors' own table. */
    method ActorsBatch(p: Policy, fate: nat -> Fate) returns (r: Outcome)
      modifies this
      ensures OnTheWay(old(Rows()), Rows(), p)
      ensures StalePosts(Rows(), p) == old(StalePosts(Rows(), p))
      ensures |Marked(StaleActors(Rows(), p), 0)| <= |old(Marked(StaleActors(Rows(), p), 0))|
      ensures r.Updated? ==> r.n == |old(WorkList(StaleActors(Rows(), p)))|
      ensures r.Updated? ==> Marked(StaleActors(Rows(), p), 0) == old(Marked(StaleActors(Rows(), p), 0))[r.n..]
      ensures r.Updated? ==> issued == old(issued) + 1 + r.n
      ensures issued > old(issued) && forall k :: old(issued) < k < issued ==> fate(k) == Done
      ensures fate(issued) == match r case Updated(_) => Done case Error => Fails case Stopped => Stops
    {
      hide Target, StalePosts, StaleActors, Marked, Recleaned, OnTheWay;
      AtTheStart(Rows(), p);
      issued := issued + 1;
      if fate(issued) != Done { return if fate(issued).Fails? then Error else Stopped; }
      ghost var all := Marked(StaleActors(Rows(), p), 0);
      var work := WorkList(StaleActors(Rows(), p));
      ghost var before := Rows();
      for k := 0 to |work|
        invariant |actors| == |before.actors|
        invariant Marked(StaleActors(Rows(), p), 0) == all[k..]
        invariant StalePosts(Rows(), p) == StalePosts(before, p)
        invariant OnTheWay(before, Rows(), p)
        invariant issued == old(issued) + 1 + k
        invariant forall j :: old(issued) < j <= issued ==> fate(j) == Done
      {
        issued := issued + 1;
        if fate(issued) != Done { return if fate(issued).Fails? then Error else Stopped; }
        var i := work[k];
        assert i == all[k..][0];
        ActorDoneIs(Rows(), i, p);
        ActorStaysOnTheWay(before, Rows(), i, p);
        FirstDone(StaleActors(Rows(), p), 0);
        actors := actors[i := Recleaned(actors[i], p)];
      }
      r := Updated(|work|);
    }

    /** Posts, batch after batch until one is empty or fails, and then actors in the same way: all rows are
        on the way to their target, and at it if nothing failed. */
    method Run(p: Policy, fate: nat -> Fate) returns (postsUpdated: nat, actorsUpdated: nat)
      modifies this
      ensures OnTheWay(old(Rows()), Rows(), p)
      ensures (forall k :: fate(k) == Done) ==>
        && Rows() == Target(old(Rows()), p) && IsUpToDate(old(Rows()), Rows(), p)
        && postsUpdated == |StalePlaces(old(Rows()), p)|
        && actorsUpdated == |StaleActorPlaces(old(Rows()), p)|
      ensures FailsOnce(fate) ==>
        Rows().posts == Target(old(Rows()), p).posts || Rows().actors == Target(old(Rows()), p).actors
    {
      hide Target, StalePosts, StaleActors, Marked, OnTheWay, StalePlaces, StaleActorPlaces, IsUpToDate;
      ghost var start := Rows();
      ghost var posts0, actors0 := |Marked(StalePosts(start, p), 0)|, |Marked(StaleActors(start, p), 0)|;
      postsUpdated, actorsUpdated := 0, 0;
      AtTheStart(start, p);
      while true
        invariant OnTheWay(start, Rows(), p)
        invariant StaleActors(Rows(), p) == StaleActors(start, p)
        invariant postsUpdated + |Marked(StalePosts(Rows(), p), 0)| == posts0
        decreases |Marked(StalePosts(Rows(), p), 0)|
      {
        ghost var before := Rows();
        var r := PostsBatch(p, fate);
        OnTheWayFurther(start, before, Rows(), p);
        if r.Stopped? { return; }
        if r.Error? || r.n == 0 { break; }
        postsUpdated := postsUpdated + r.n;
      }
      ghost var middle, turned := StalePosts(Rows(), p), issued;
      ghost var postsFailed := |Marked(middle, 0)| != 0;
      while true
        invariant postsFailed ==> turned <= issued && fate(turned) == Fails
        invariant OnTheWay(start, Rows(), p)
        invariant StalePosts(Rows(), p) == middle
        invariant actorsUpdated + |Marked(StaleActors(Rows(), p), 0)| == actors0
        decreases |Marked(StaleActors(Rows(), p), 0)|
      {
        ghost var before := Rows();
        var r := ActorsBatch(p, fate);
        OnTheWayFurther(start, before, Rows(), p);
        if r.Stopped? { return; }
        if r.Error? || r.n == 0 { break; }
        actorsUpdated := actorsUpdated + r.n;
      }
      if FailsOnce(fate) {
        if postsFailed { ActorsArrived(start, Rows(), p); } else { PostsArrived(start, Rows(), p); }
      }
      if forall k :: fate(k) == Done {
        Arrived(start, Rows(), p);
      }
    }

    /** A sweep that was stopped or failed, whenever that was, and the next boot's, between them leave
        what one undisturbed sweep would have left; and a sweep after that changes nothing. */
    method RunAgain(p: Policy, first: nat -> Fate, second: nat -> Fate) returns (postsLast: nat, actorsLast: nat)
      requires forall k :: second(k) == Done
      modifies this
      ensures Rows() == Target(old(Rows()), p)
      ensures postsLast == 0 && actorsLast == 0
    {
      hide Target, StalePosts, StaleActors, Marked, StalePlaces, StaleActorPlaces, IsUpToDate;
      var _, _ := Run(p, first);
      var _, _ := Run(p, second);
      TargetIsNotBehind(old(Rows()), p);
      NoneBehind(Rows(), p);
      StaleCounts(Rows(), p);
      postsLast, actorsLast := Run(p, second);
    }
  }

  /** At most one statement fails, and the process is never stopped. */
  ghost predicate FailsOnce(fate: nat -> Fate) {
    (forall k :: fate(k) != Stops) && forall j, k :: fate(j) == Fails && fate(k) == Fails ==> j == k
  }

  lemma PostsArrived(start: Tables, t: Tables, p: Policy)
    requires OnTheWay(start, t, p) && |Marked(StalePosts(t, p), 0)| == 0
    ensures t.posts == Target(start, p).posts
  {
    forall i | 0 <= i < |t.posts|
      ensures !IsStalePost(t, t.posts[i], p)
    {
      NoneMarked(StalePosts(t, p), 0, i);
      assert !StalePosts(t, p)[i];
    }
    assert t.posts == Target(t, p).posts;
  }

  lemma ActorsArrived(start: Tables, t: Tables, p: Policy)
    requires OnTheWay(start, t, p) && |Marked(StaleActors(t, p), 0)| == 0
    ensures t.actors == Target(start, p).actors
  {
    forall i | 0 <= i < |t.actors|
      ensures !IsStaleActor(t.actors[i], p)
    {
      NoneMarked(StaleActors(t, p), 0, i);
      assert !StaleActors(t, p)[i];
    }
    assert t.actors == Target(t, p).actors;
  }

  lemma Arrived(start: Tables, t: Tables, p: Policy)
    requires OnTheWay(start, t, p)
    requires |Marked(StalePosts(t, p), 0)| == 0 && |Marked(StaleActors(t, p), 0)| == 0
    ensures t == Target(start, p) && IsUpToDate(start, t, p)
    ensures |Marked(StalePosts(start, p), 0)| == |StalePlaces(start, p)|
    ensures |Marked(StaleActors(start, p), 0)| == |StaleActorPlaces(start, p)|
  {
    hide Target, IsUpToDate, StalePlaces, StaleActorPlaces;
    NoneBehind(t, p);
    TargetIs(start, t, p);
    StaleCounts(start, p);
  }
}
