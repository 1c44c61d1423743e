/**
 * The command service: posting with synchronous fan-out to the author's followers, the two-sided
 * follow and unfollow commands, and the wall and timeline read-models.
 */
module TwitService {
  import opened Lists
  import opened Results
  import opened Events
  import opened Projection
  import Model

  /** The application state: the event log and the counter of `PostRepository`. */
  datatype Store = Store(log: Log, counter: nat)

  /** What the service's callers rely on between commands. */
  ghost predicate Valid(st: Store) {
    Model.AllGuarded(st.log) && Model.PostIdsBelow(st.log, st.counter)
  }

  /** `userEvents`: the stream of one user, which holds only that user's events. */
  function UserEvents(log: Log, id: UserId): (r: Log)
    ensures forall e :: e in r <==> e in log && IsUserEvent(e) && e.user == id
  {
    forall e ensures AggregateOf(e) == UserAggregate(id) <==> IsUserEvent(e) && e.user == id {
      BelongsToUser(e, id);
    }
    Model.Stream(log, id)
  }

  // ---------------------------------------------------------------------------
  // Commands

  /** `post(id, text)`: load (or create) the author, then post as that user. */
  function SubmitPost(st: Store, id: UserId, text: string): (r: Result<(Store, PostId), Model.Fault>)
    ensures r.Ok? ==> r.value.0.counter == st.counter + 1 && r.value.1 == PostId(st.counter + 1)
    ensures r.Ok? ==>
      var base := Model.LoadUser(st.log, id).log;
      && |base| + 2 <= |r.value.0.log|
      && r.value.0.log[..|base| + 2] == base + [PostCreated(r.value.1, id, text), PostSent(id, text)]
  {
    var loaded := Model.LoadUser(st.log, id);
    PostAs(Store(loaded.log, st.counter), loaded.user, text)
  }

  /**
   * `post(user, text)`: create the post, put it on the author's wall, then deliver it to every
   * follower in the author's followers list, in list order.
   */
  function PostAs(st: Store, u: Model.User, text: string): (r: Result<(Store, PostId), Model.Fault>)
    ensures u.id.None? ==> r.Err?
    ensures r.Ok? ==> r.value.0.counter == st.counter + 1 && r.value.1 == PostId(st.counter + 1)
    ensures r.Ok? ==>
      && |st.log| + 2 <= |r.value.0.log|
      && r.value.0.log[..|st.log| + 2]
         == st.log + [PostCreated(r.value.1, u.id.value, text), PostSent(u.id.value, text)]
  {
    match u.id
    case None => Err(Model.UserIdUnset)
    case Some(author) =>
      var c := Model.CreatePost(st.log, st.counter, author, text);
      var p := Model.Post(author, text);
      var sent := Model.PostMessage(Model.Session(c.log, u), p).value;
      var log :- FanOut(sent.log, sent.user.followers, p);
      assert log[..|st.log| + 2] == sent.log[..|st.log| + 2];
      Ok((Store(log, c.counter), c.id))
  }

  /** The delivery loop: each follower in list order receives the post. */
  function FanOut(log: Log, followers: seq<UserId>, p: Model.Post): (r: Result<Log, Model.Fault>)
    ensures r.Ok? ==> |log| <= |r.value| && r.value[..|log|] == log
    decreases |followers|
  {
    if followers == [] then Ok(log)
    else
      var next :- Deliver(log, followers[0], p);
      var rest := FanOut(next, followers[1..], p);
      if rest.Ok? then
        PrefixOfPrefix(log, next, rest.value);
        rest
      else
        rest
  }

  /** A prefix of a prefix is a prefix. */
  lemma PrefixOfPrefix(a: Log, b: Log, c: Log)
    requires |a| <= |b| && b[..|a|] == a
    requires |b| <= |c| && c[..|b|] == b
    ensures |a| <= |c| && c[..|a|] == a
  {
    assert c[..|a|] == c[..|b|][..|a|];
  }

  /** One delivery: load (or create) the follower, then let it receive the post. */
  function Deliver(log: Log, f: UserId, p: Model.Post): (r: Result<Log, Model.Fault>)
    ensures r.Err? <==> Model.LoadUser(log, f).user.id.None?
    ensures r.Ok? ==> r.value == Add(Model.LoadUser(log, f).log, PostReceived(f, p.author, p.text))
  {
    var loaded := Model.LoadUser(log, f);
    var received :- Model.Receive(loaded, p);
    Ok(received.log)
  }

  /** `follow(a, b)`: `a` starts following `b`, then, as a separate command, `b` gains follower `a`. */
  function Follow(st: Store, follower: UserId, followed: UserId): (r: Result<Store, Model.Fault>)
    ensures r.Ok? ==> r.value.counter == st.counter
  {
    var a := Model.LoadUser(st.log, follower);
    var a' :- Model.Follow(a, followed);
    var b := Model.LoadUser(a'.log, followed);
    var b' :- Model.AddFollower(b, follower);
    Ok(st.(log := b'.log))
  }

  /** `unfollow(a, b)`: `a` stops following `b`, then, separately, `b` loses follower `a`. */
  function Unfollow(st: Store, follower: UserId, followed: UserId): (r: Result<Store, Model.Fault>)
    ensures r.Ok? ==> r.value.counter == st.counter
  {
    var a := Model.LoadUser(st.log, follower);
    var a' :- Model.Unfollow(a, followed);
    var b := Model.LoadUser(a'.log, followed);
    var b' :- Model.RemoveFollower(b, follower);
    Ok(st.(log := b'.log))
  }

  /** The test reset: the log is cleared, the post counter keeps counting. */
  function Reset(st: Store): (r: Store)
    ensures Valid(r)
    ensures r.counter == st.counter
    ensures forall id :: UserEvents(r.log, id) == []
  {
    Store(Clear(st.log), st.counter)
  }

  // ---------------------------------------------------------------------------
  // Read-models

  /** One step of `wall`'s projection; its effect over a whole log is `ReadModelsAdd`. */
  function WallStep(posts: seq<Model.Post>, e: Event): seq<Model.Post> {
    match e
    case PostSent(id, m) => [Model.Post(id, m)] + posts
    case _ => posts
  }

  /** `wall`: the user's `PostSent` events, each prepended: the aggregate's wall, newest first. */
  function Wall(log: Log, id: UserId): (r: seq<Model.Post>)
    ensures forall q :: q in r ==> q.author == id && PostSent(id, q.text) in log
  {
    WallSound([], UserEvents(log, id), id, log);
    Reduce([], UserEvents(log, id), WallStep)
  }

  /** One step of `timeline`'s projection; its effect over a whole log is `ReadModelsAdd`. */
  function TimelineStep(posts: seq<Model.Post>, e: Event): seq<Model.Post> {
    match e
    case PostReceived(_, a, m) => [Model.Post(a, m)] + posts
    case _ => posts
  }

  /** `timeline`: the user's `PostReceived` events, each prepended: the aggregate's timeline, newest first. */
  function Timeline(log: Log, id: UserId): (r: seq<Model.Post>)
    ensures forall q :: q in r ==> PostReceived(id, q.author, q.text) in log
  {
    TimelineSound([], UserEvents(log, id), id, log);
    Reduce([], UserEvents(log, id), TimelineStep)
  }

  /** Every delivery of the log, in append order. */
  function Deliveries(log: Log): Log
    decreases |log|
  {
    if log == [] then []
    else
      var last := log[|log| - 1];
      Deliveries(log[..|log| - 1]) + (if last.PostReceived? then [last] else [])
  }

  /** One `PostReceived` per listed follower, in list order. */
  function Receipts(followers: seq<UserId>, p: Model.Post): Log
    decreases |followers|
  {
    if followers == [] then []
    else [PostReceived(followers[0], p.author, p.text)] + Receipts(followers[1..], p)
  }

  // ---------------------------------------------------------------------------
  // The read-models against the aggregate

  lemma {:induction false} WallFold(acc: seq<Model.Post>, u: Model.User, s: Log)
    requires acc == Reverse(u.wall)
    ensures Reduce(acc, s, WallStep) == Reverse(Reduce(u, s, Model.On).wall)
    decreases |s|
  {
    if s != [] {
      var e := s[0];
      if e.PostSent? {
        ReverseSnoc(u.wall, Model.Post(e.user, e.message));
      }
      WallFold(WallStep(acc, e), Model.On(u, e), s[1..]);
    }
  }

  lemma {:induction false} TimelineFold(acc: seq<Model.Post>, u: Model.User, s: Log)
    requires acc == Reverse(u.timeline)
    ensures Reduce(acc, s, TimelineStep) == Reverse(Reduce(u, s, Model.On).timeline)
    decreases |s|
  {
    if s != [] {
      var e := s[0];
      if e.PostReceived? {
        ReverseSnoc(u.timeline, Model.Post(e.author, e.message));
      }
      TimelineFold(TimelineStep(acc, e), Model.On(u, e), s[1..]);
    }
  }

  /** Wall and timeline are the aggregate's own lists read newest first. */
  lemma ReadModelsMirrorAggregate(log: Log, id: UserId)
    ensures Wall(log, id) == Reverse(Model.Replay(UserEvents(log, id)).wall)
    ensures Timeline(log, id) == Reverse(Model.Replay(UserEvents(log, id)).timeline)
  {
    WallFold([], Model.Blank, UserEvents(log, id));
    TimelineFold([], Model.Blank, UserEvents(log, id));
  }

  /** Each wall entry comes from one of the user's own `PostSent` events. */
  lemma {:induction false} WallSound(acc: seq<Model.Post>, s: Log, id: UserId, all: Log)
    requires forall q :: q in acc ==> q.author == id && PostSent(id, q.text) in all
    requires forall e :: e in s ==> e in all && IsUserEvent(e) && e.user == id
    ensures forall q :: q in Reduce(acc, s, WallStep) ==> q.author == id && PostSent(id, q.text) in all
    decreases |s|
  {
    if s != [] {
      assert s[0] in s;
      assert forall e :: e in s[1..] ==> e in s;
      WallSound(WallStep(acc, s[0]), s[1..], id, all);
    }
  }

  /** Each timeline entry comes from one of the user's own `PostReceived` events. */
  lemma {:induction false} TimelineSound(acc: seq<Model.Post>, s: Log, id: UserId, all: Log)
    requires forall q :: q in acc ==> PostReceived(id, q.author, q.text) in all
    requires forall e :: e in s ==> e in all && IsUserEvent(e) && e.user == id
    ensures forall q :: q in Reduce(acc, s, TimelineStep) ==> PostReceived(id, q.author, q.text) in all
    decreases |s|
  {
    if s != [] {
      assert s[0] in s;
      assert forall e :: e in s[1..] ==> e in s;
      TimelineSound(TimelineStep(acc, s[0]), s[1..], id, all);
    }
  }

  /** One appended event puts at most one post in front of one user's wall or timeline. */
  lemma ReadModelsAdd(log: Log, e: Event, g: UserId)
    ensures Wall(Add(log, e), g)
         == (if e.PostSent? && e.user == g then [Model.Post(g, e.message)] else []) + Wall(log, g)
    ensures Timeline(Add(log, e), g)
         == (if e.PostReceived? && e.user == g then [Model.Post(e.author, e.message)] else [])
            + Timeline(log, g)
  {
    Model.StreamAdd(log, e, g);
    var s := Model.Stream(log, g);
    if IsUserEvent(e) && e.user == g {
      ReduceSnoc([], s, e, WallStep);
      ReduceSnoc([], s, e, TimelineStep);
    } else {
      assert s + [] == s;
    }
  }

  lemma DeliveriesAdd(log: Log, e: Event)
    ensures Deliveries(Add(log, e)) == Deliveries(log) + (if e.PostReceived? then [e] else [])
  {
    assert Add(log, e)[..|log|] == log;
  }

  // ---------------------------------------------------------------------------
  // The fan-out

  /** On a guarded log the fan-out never fails, and it keeps the log guarded and post ids bounded. */
  lemma {:induction false} FanOutSucceeds(log: Log, fs: seq<UserId>, p: Model.Post, n: nat)
    requires Model.AllGuarded(log)
    ensures FanOut(log, fs, p).Ok?
    ensures Model.AllGuarded(FanOut(log, fs, p).value)
    ensures Model.PostIdsBelow(log, n) ==> Model.PostIdsBelow(FanOut(log, fs, p).value, n)
    decreases |fs|
  {
    if fs != [] {
      DeliverKeepsValid(log, fs[0], p, n);
      FanOutSucceeds(Deliver(log, fs[0], p).value, fs[1..], p, n);
    }
  }

  /** On a guarded log one delivery succeeds, keeps every stream guarded and issues no post id. */
  lemma DeliverKeepsValid(log: Log, f: UserId, p: Model.Post, n: nat)
    requires Model.AllGuarded(log)
    ensures Deliver(log, f, p).Ok?
    ensures Model.AllGuarded(Deliver(log, f, p).value)
    ensures Model.PostIdsBelow(log, n) ==> Model.PostIdsBelow(Deliver(log, f, p).value, n)
  {
    var loaded := Model.LoadUser(log, f);
    var e := PostReceived(f, p.author, p.text);
    Model.LoadUserConsistent(log, f);
    Model.ApplyConsistent(loaded, e, f);
    LoadKeepsPosts(log, f);
    UserEventKeepsPosts(loaded.log, e);
    if Model.PostIdsBelow(log, n) {
      PostIdsBelowByCategory(log, Add(loaded.log, e), n);
    }
  }

  /** The deliveries the fan-out appends are one `PostReceived` per follower, in list order. */
  lemma {:induction false} FanOutDeliveries(log: Log, fs: seq<UserId>, p: Model.Post)
    requires FanOut(log, fs, p).Ok?
    ensures Deliveries(FanOut(log, fs, p).value) == Deliveries(log) + Receipts(fs, p)
    decreases |fs|
  {
    if fs != [] {
      var f := fs[0];
      var loaded := Model.LoadUser(log, f);
      var next := Deliver(log, f, p).value;
      if Model.Stream(log, f) == [] {
        DeliveriesAdd(log, UserCreated(f));
      }
      DeliveriesAdd(loaded.log, PostReceived(f, p.author, p.text));
      FanOutDeliveries(next, fs[1..], p);
    }
  }

  /** A user not in the followers list gets no event from the fan-out. */
  lemma {:induction false} FanOutSkipsOthers(log: Log, fs: seq<UserId>, p: Model.Post, g: UserId)
    requires FanOut(log, fs, p).Ok?
    requires g !in fs
    ensures UserEvents(FanOut(log, fs, p).value, g) == UserEvents(log, g)
    decreases |fs|
  {
    if fs != [] {
      var f := fs[0];
      var loaded := Model.LoadUser(log, f);
      var next := Deliver(log, f, p).value;
      Model.StreamAdd(log, UserCreated(f), g);
      Model.StreamAdd(loaded.log, PostReceived(f, p.author, p.text), g);
      FanOutSkipsOthers(next, fs[1..], p, g);
    }
  }

  /** The round for follower `f` puts the post in front of `f`'s timeline and of no other. */
  lemma RoundTimeline(log: Log, f: UserId, p: Model.Post, g: UserId)
    ensures Timeline(Add(Model.LoadUser(log, f).log, PostReceived(f, p.author, p.text)), g)
         == (if g == f then [p] else []) + Timeline(log, g)
  {
    var loaded := Model.LoadUser(log, f);
    if Model.Stream(log, f) == [] {
      ReadModelsAdd(log, UserCreated(f), g);
    }
    ReadModelsAdd(loaded.log, PostReceived(f, p.author, p.text), g);
  }

  /** Every user's timeline gets the post in front once per occurrence in the followers list. */
  lemma {:induction false} FanOutTimelines(log: Log, fs: seq<UserId>, p: Model.Post, g: UserId)
    requires FanOut(log, fs, p).Ok?
    ensures Timeline(FanOut(log, fs, p).value, g) == Repeat(p, multiset(fs)[g]) + Timeline(log, g)
    decreases |fs|
  {
    if fs != [] {
      var f := fs[0];
      var next := Deliver(log, f, p).value;
      var out := FanOut(next, fs[1..], p).value;
      assert FanOut(log, fs, p).value == out;
      CountCons(fs, g);
      RoundTimeline(log, f, p, g);
      FanOutTimelines(next, fs[1..], p, g);
      RepeatChain(Timeline(log, g), Timeline(next, g), Timeline(out, g), p,
                  multiset(fs[1..])[g], multiset(fs)[g], f == g);
    }
  }

  /** The count of `g` in a list: the head's share plus the count in the tail. */
  lemma CountCons(fs: seq<UserId>, g: UserId)
    requires fs != []
    ensures multiset(fs)[g] == (if fs[0] == g then 1 else 0) + multiset(fs[1..])[g]
  {
    assert fs == [fs[0]] + fs[1..];
  }

  /** One round puts at most one copy in front; the later rounds put `m` more in front of that. */
  lemma RepeatChain(t0: seq<Model.Post>, t1: seq<Model.Post>, t2: seq<Model.Post>, p: Model.Post,
                    m: nat, n: nat, hit: bool)
    requires t1 == (if hit then [p] else []) + t0
    requires t2 == Repeat(p, m) + t1
    requires n == (if hit then 1 else 0) + m
    ensures t2 == Repeat(p, n) + t0
  {
    RepeatFront(p, m, hit, t0);
  }

  lemma RepeatFront(p: Model.Post, m: nat, hit: bool, t: seq<Model.Post>)
    ensures Repeat(p, m) + ((if hit then [p] else []) + t) == Repeat(p, (if hit then 1 else 0) + m) + t
  {
    if hit {
      RepeatAdd(p, m, 1);
      assert Repeat(p, m) + ([p] + t) == (Repeat(p, m) + Repeat(p, 1)) + t;
    } else {
      assert Repeat(p, m) + ([] + t) == Repeat(p, m) + t;
    }
  }

  /** The fan-out changes no wall. */
  lemma {:induction false} FanOutWalls(log: Log, fs: seq<UserId>, p: Model.Post, g: UserId)
    requires FanOut(log, fs, p).Ok?
    ensures Wall(FanOut(log, fs, p).value, g) == Wall(log, g)
    decreases |fs|
  {
    if fs != [] {
      var f := fs[0];
      var loaded := Model.LoadUser(log, f);
      var next := Deliver(log, f, p).value;
      if Model.Stream(log, f) == [] {
        ReadModelsAdd(log, UserCreated(f), g);
      }
      ReadModelsAdd(loaded.log, PostReceived(f, p.author, p.text), g);
      FanOutWalls(next, fs[1..], p, g);
    }
  }

  /** Appending only user events leaves the post category of the log as it was. */
  lemma {:induction false} FanOutKeepsPosts(log: Log, fs: seq<UserId>, p: Model.Post)
    requires FanOut(log, fs, p).Ok?
    ensures FindByAggregateType(FanOut(log, fs, p).value, POST) == FindByAggregateType(log, POST)
    decreases |fs|
  {
    if fs != [] {
      var f := fs[0];
      var loaded := Model.LoadUser(log, f);
      var next := Deliver(log, f, p).value;
      SelectAdd(log, UserCreated(f), ByType(POST));
      SelectAdd(loaded.log, PostReceived(f, p.author, p.text), ByType(POST));
      FanOutKeepsPosts(next, fs[1..], p);
    }
  }

  // ---------------------------------------------------------------------------
  // The commands against the invariant

  /** Appending a user event leaves the post category of the log as it was. */
  lemma UserEventKeepsPosts(log: Log, e: Event)
    requires IsUserEvent(e)
    ensures FindByAggregateType(Add(log, e), POST) == FindByAggregateType(log, POST)
  {
    SelectAdd(log, e, ByType(POST));
  }

  /** Loading a user touches no post event. */
  lemma LoadKeepsPosts(log: Log, id: UserId)
    ensures FindByAggregateType(Model.LoadUser(log, id).log, POST) == FindByAggregateType(log, POST)
  {
    UserEventKeepsPosts(log, UserCreated(id));
  }

  /** The post-id bound depends only on the post category of the log. */
  lemma PostIdsBelowByCategory(log: Log, log': Log, n: nat)
    requires FindByAggregateType(log', POST) == FindByAggregateType(log, POST)
    requires Model.PostIdsBelow(log, n)
    ensures Model.PostIdsBelow(log', n)
  {
    forall e | e in log' && !IsUserEvent(e)
      ensures e.post.id <= n
    {
      assert e in FindByAggregateType(log', POST);
    }
  }

  /** The log `post(b, t)` has built when the fan-out starts: load, `PostCreated`, `PostSent`. */
  function Sent(log: Log, counter: nat, b: UserId, text: string): Log {
    Add(Add(Model.LoadUser(log, b).log, PostCreated(PostId(counter + 1), b, text)), PostSent(b, text))
  }

  /** Once the author is loaded with its id set, `post` is the fan-out over the loaded followers. */
  lemma PostUnfolds(st: Store, b: UserId, text: string)
    requires Model.LoadUser(st.log, b).user.id == Some(b)
    ensures var out := FanOut(Sent(st.log, st.counter, b, text), Model.LoadUser(st.log, b).user.followers, Model.Post(b, text));
            SubmitPost(st, b, text) == if out.Ok? then Ok((Store(out.value, st.counter + 1), PostId(st.counter + 1))) else Err(out.error)
  {
  }

  /** The four events that change a follow list. */
  predicate IsLinkEvent(e: Event) {
    e.FollowingStarted? || e.FollowingEnded? || e.FollowerAdded? || e.FollowerRemoved?
  }

  /** `g` has the same `followed` and `followers` lists after `log'` as after `log`. */
  predicate SameLinks(log: Log, log': Log, g: UserId) {
    && Model.Replay(UserEvents(log', g)).followed == Model.Replay(UserEvents(log, g)).followed
    && Model.Replay(UserEvents(log', g)).followers == Model.Replay(UserEvents(log, g)).followers
  }

  /** An appended event that is not a link event changes nobody's follow lists. */
  lemma LinksAdd(log: Log, e: Event, g: UserId)
    requires !IsLinkEvent(e)
    ensures SameLinks(log, Add(log, e), g)
  {
    Model.StreamAdd(log, e, g);
    if IsUserEvent(e) && e.user == g {
      ReduceSnoc(Model.Blank, Model.Stream(log, g), e, Model.On);
    } else {
      assert Model.Stream(log, g) + [] == Model.Stream(log, g);
    }
  }

  /** The fan-out appends creations and receipts only, so nobody's follow lists change. */
  lemma {:induction false} FanOutLinks(log: Log, fs: seq<UserId>, p: Model.Post, g: UserId)
    requires FanOut(log, fs, p).Ok?
    ensures SameLinks(log, FanOut(log, fs, p).value, g)
    decreases |fs|
  {
    if fs != [] {
      var f := fs[0];
      var loaded := Model.LoadUser(log, f);
      var next := Deliver(log, f, p).value;
      LoadKeepsLinks(log, f, g);
      LinksAdd(loaded.log, PostReceived(f, p.author, p.text), g);
      FanOutLinks(next, fs[1..], p, g);
    }
  }

  /** Loading the author, creating the post and sending it change nobody's follow lists. */
  lemma SentLinks(log: Log, counter: nat, b: UserId, text: string, g: UserId)
    ensures SameLinks(log, Sent(log, counter, b, text), g)
  {
    var loaded := Model.LoadUser(log, b).log;
    var created := Add(loaded, PostCreated(PostId(counter + 1), b, text));
    LoadKeepsLinks(log, b, g);
    LinksAdd(loaded, PostCreated(PostId(counter + 1), b, text), g);
    LinksAdd(created, PostSent(b, text), g);
  }

  /** Loading a user, which at most creates it, changes nobody's follow lists. */
  lemma LoadKeepsLinks(log: Log, b: UserId, g: UserId)
    ensures SameLinks(log, Model.LoadUser(log, b).log, g)
  {
    if Model.Stream(log, b) == [] {
      LinksAdd(log, UserCreated(b), g);
    }
  }

  /** A post leaves every user's `followed` and `followers` lists as they were. */
  lemma PostKeepsLinks(st: Store, b: UserId, text: string, g: UserId)
    requires Valid(st)
    ensures SubmitPost(st, b, text).Ok?
    ensures SameLinks(st.log, SubmitPost(st, b, text).value.0.log, g)
  {
    SentValid(st, b, text);
    PostUnfolds(st, b, text);
    var fs := Model.LoadUser(st.log, b).user.followers;
    var sent := Sent(st.log, st.counter, b, text);
    FanOutSucceeds(sent, fs, Model.Post(b, text), 0);
    FanOutLinks(sent, fs, Model.Post(b, text), g);
    SentLinks(st.log, st.counter, b, text, g);
  }

  /** On a valid store the log handed to the fan-out is guarded and bounded by the new counter. */
  lemma SentValid(st: Store, b: UserId, text: string)
    requires Valid(st)
    ensures Model.LoadUser(st.log, b).user.id == Some(b)
    ensures NoDup(Model.LoadUser(st.log, b).user.followers)
    ensures Model.AllGuarded(Sent(st.log, st.counter, b, text))
    ensures Model.PostIdsBelow(Sent(st.log, st.counter, b, text), st.counter + 1)
  {
    var loaded := Model.LoadUser(st.log, b);
    Model.LoadUserConsistent(st.log, b);
    Model.GuardedFacts(Model.Stream(loaded.log, b));
    LoadKeepsPosts(st.log, b);
    PostIdsBelowByCategory(st.log, loaded.log, st.counter);
    var c := Model.CreatePost(loaded.log, st.counter, b, text);
    Model.PostEventKeepsStreams(loaded.log, PostCreated(c.id, b, text));
    var s := Model.Session(c.log, loaded.user);
    assert Model.Consistent(s, b);
    Model.CommandsKeepConsistent(s, b, Model.Post(b, text), b);
    UserEventKeepsPosts(c.log, PostSent(b, text));
    PostIdsBelowByCategory(c.log, Add(c.log, PostSent(b, text)), c.counter);
  }

  /** On a valid store `post` succeeds, keeps the store valid, and hands out the next id. */
  lemma PostKeepsValid(st: Store, b: UserId, text: string)
    requires Valid(st)
    ensures SubmitPost(st, b, text).Ok?
    ensures Valid(SubmitPost(st, b, text).value.0)
    ensures SubmitPost(st, b, text).value.1 == PostId(st.counter + 1)
  {
    SentValid(st, b, text);
    PostUnfolds(st, b, text);
    FanOutSucceeds(Sent(st.log, st.counter, b, text), Model.LoadUser(st.log, b).user.followers, Model.Post(b, text), st.counter + 1);
  }

  /** `post(b, t)` delivers one `PostReceived(f, b, t)` per follower `f` of `b`, in followers order. */
  lemma PostDelivers(st: Store, b: UserId, text: string)
    requires Valid(st)
    ensures SubmitPost(st, b, text).Ok?
    ensures Deliveries(SubmitPost(st, b, text).value.0.log)
         == Deliveries(st.log) + Receipts(Model.LoadUser(st.log, b).user.followers, Model.Post(b, text))
  {
    SentValid(st, b, text);
    PostUnfolds(st, b, text);
    var fs := Model.LoadUser(st.log, b).user.followers;
    var sent := Sent(st.log, st.counter, b, text);
    SentDeliveries(st.log, st.counter, b, text);
    FanOutSucceeds(sent, fs, Model.Post(b, text), 0);
    FanOutDeliveries(sent, fs, Model.Post(b, text));
  }

  /** Building the log the fan-out starts from delivers nothing. */
  lemma SentDeliveries(log: Log, counter: nat, b: UserId, text: string)
    ensures Deliveries(Sent(log, counter, b, text)) == Deliveries(log)
  {
    var loaded := Model.LoadUser(log, b);
    var created := Add(loaded.log, PostCreated(PostId(counter + 1), b, text));
    if Model.Stream(log, b) == [] {
      DeliveriesAdd(log, UserCreated(b));
    }
    DeliveriesAdd(loaded.log, PostCreated(PostId(counter + 1), b, text));
    DeliveriesAdd(created, PostSent(b, text));
  }

  /** Building the log the fan-out starts from changes no timeline, and only the author's wall. */
  lemma SentReadModels(log: Log, counter: nat, b: UserId, text: string, g: UserId)
    ensures Timeline(Sent(log, counter, b, text), g) == Timeline(log, g)
    ensures Wall(Sent(log, counter, b, text), g)
         == (if g == b then [Model.Post(b, text)] else []) + Wall(log, g)
  {
    var created := Add(Model.LoadUser(log, b).log, PostCreated(PostId(counter + 1), b, text));
    CreatedKeepsReadModels(log, counter, b, text, g);
    SentStep(created, b, text, g);
  }

  /** Loading the author and creating the post change no wall and no timeline. */
  lemma CreatedKeepsReadModels(log: Log, counter: nat, b: UserId, text: string, g: UserId)
    ensures var created := Add(Model.LoadUser(log, b).log, PostCreated(PostId(counter + 1), b, text));
            Timeline(created, g) == Timeline(log, g) && Wall(created, g) == Wall(log, g)
  {
    LoadKeepsReadModels(log, b, g);
    ReadModelsAdd(Model.LoadUser(log, b).log, PostCreated(PostId(counter + 1), b, text), g);
  }

  /** The author's `PostSent` changes no timeline and puts the post in front of the author's wall only. */
  lemma SentStep(log: Log, b: UserId, text: string, g: UserId)
    ensures Timeline(Add(log, PostSent(b, text)), g) == Timeline(log, g)
    ensures Wall(Add(log, PostSent(b, text)), g) == (if g == b then [Model.Post(b, text)] else []) + Wall(log, g)
  {
    ReadModelsAdd(log, PostSent(b, text), g);
  }

  /** Loading a user, even one it has to create, changes no wall and no timeline. */
  lemma LoadKeepsReadModels(log: Log, b: UserId, g: UserId)
    ensures Timeline(Model.LoadUser(log, b).log, g) == Timeline(log, g)
    ensures Wall(Model.LoadUser(log, b).log, g) == Wall(log, g)
  {
    if Model.Stream(log, b) == [] {
      ReadModelsAdd(log, UserCreated(b), g);
    }
  }

  /** After `post(b, t)`, each follower of `b` has the post in front of its timeline; nobody else does. */
  lemma PostTimelines(st: Store, b: UserId, text: string, g: UserId)
    requires Valid(st)
    ensures SubmitPost(st, b, text).Ok?
    ensures Timeline(SubmitPost(st, b, text).value.0.log, g)
         == (if g in Model.LoadUser(st.log, b).user.followers then [Model.Post(b, text)] else [])
            + Timeline(st.log, g)
  {
    SentValid(st, b, text);
    PostUnfolds(st, b, text);
    var fs := Model.LoadUser(st.log, b).user.followers;
    var p := Model.Post(b, text);
    var sent := Sent(st.log, st.counter, b, text);
    FanOutSucceeds(sent, fs, p, 0);
    FanOutTimelines(sent, fs, p, g);
    SentReadModels(st.log, st.counter, b, text, g);
    NoDupCount(fs, g);
    assert Repeat(p, 1) == [p];
  }

  /** After `post(b, t)`, the post is in front of `b`'s wall and every other wall is as it was. */
  lemma PostWalls(st: Store, b: UserId, text: string, g: UserId)
    requires Valid(st)
    ensures SubmitPost(st, b, text).Ok?
    ensures Wall(SubmitPost(st, b, text).value.0.log, g)
         == (if g == b then [Model.Post(b, text)] else []) + Wall(st.log, g)
  {
    SentValid(st, b, text);
    PostUnfolds(st, b, text);
    var fs := Model.LoadUser(st.log, b).user.followers;
    var sent := Sent(st.log, st.counter, b, text);
    FanOutSucceeds(sent, fs, Model.Post(b, text), 0);
    FanOutWalls(sent, fs, Model.Post(b, text), g);
    SentReadModels(st.log, st.counter, b, text, g);
  }

  /** A user who is neither the author nor one of its followers gets no event from `post`. */
  lemma PostSkipsOthers(st: Store, b: UserId, text: string, g: UserId)
    requires Valid(st)
    requires g != b && g !in Model.LoadUser(st.log, b).user.followers
    ensures SubmitPost(st, b, text).Ok?
    ensures UserEvents(SubmitPost(st, b, text).value.0.log, g) == UserEvents(st.log, g)
  {
    SentValid(st, b, text);
    PostUnfolds(st, b, text);
    var loaded := Model.LoadUser(st.log, b);
    var created := Add(loaded.log, PostCreated(PostId(st.counter + 1), b, text));
    var sent := Sent(st.log, st.counter, b, text);
    Model.StreamAdd(st.log, UserCreated(b), g);
    Model.StreamAdd(loaded.log, PostCreated(PostId(st.counter + 1), b, text), g);
    Model.StreamAdd(created, PostSent(b, text), g);
    FanOutSucceeds(sent, loaded.user.followers, Model.Post(b, text), 0);
    FanOutSkipsOthers(sent, loaded.user.followers, Model.Post(b, text), g);
  }

  /** `post(b, t)` adds exactly one event to the post category: its `PostCreated`, at the end. */
  lemma PostAddsOnePost(st: Store, b: UserId, text: string)
    requires Valid(st)
    ensures SubmitPost(st, b, text).Ok?
    ensures FindByAggregateType(SubmitPost(st, b, text).value.0.log, POST)
         == FindByAggregateType(st.log, POST) + [PostCreated(PostId(st.counter + 1), b, text)]
  {
    SentValid(st, b, text);
    PostUnfolds(st, b, text);
    var loaded := Model.LoadUser(st.log, b);
    var e := PostCreated(PostId(st.counter + 1), b, text);
    var sent := Sent(st.log, st.counter, b, text);
    LoadKeepsPosts(st.log, b);
    SelectAdd(loaded.log, e, ByType(POST));
    UserEventKeepsPosts(Add(loaded.log, e), PostSent(b, text));
    FanOutSucceeds(sent, loaded.user.followers, Model.Post(b, text), 0);
    FanOutKeepsPosts(sent, loaded.user.followers, Model.Post(b, text));
  }

  /** The first half of `follow(a, b)` on a valid store: `a` now follows `b`, consistently. */
  lemma FollowFirstHalf(st: Store, a: UserId, b: UserId)
    requires Valid(st)
    ensures Model.Follow(Model.LoadUser(st.log, a), b).Ok?
    ensures var a' := Model.Follow(Model.LoadUser(st.log, a), b).value;
            && Model.Consistent(a', a)
            && b in a'.user.followed
            && FindByAggregateType(a'.log, POST) == FindByAggregateType(st.log, POST)
  {
    var la := Model.LoadUser(st.log, a);
    Model.LoadUserConsistent(st.log, a);
    Model.CommandsKeepConsistent(la, a, Model.Post(a, []), b);
    LoadKeepsPosts(st.log, a);
    if b !in la.user.followed {
      UserEventKeepsPosts(la.log, FollowingStarted(a, b));
    }
  }

  /** Loading `b` and then appending at most one event of `b` leaves the stream of `a != b` alone. */
  lemma KeepsOtherStream(log: Log, b: UserId, out: Log, a: UserId)
    requires a != b
    requires var l := Model.LoadUser(log, b).log;
             out == l || (|out| == |l| + 1 && out[..|l|] == l && IsUserEvent(out[|l|]) && out[|l|].user == b)
    ensures Model.Stream(out, a) == Model.Stream(log, a)
  {
    var l := Model.LoadUser(log, b).log;
    Model.StreamAdd(log, UserCreated(b), a);
    if out != l {
      assert out == Add(l, out[|l|]);
      Model.StreamAdd(l, out[|l|], a);
    }
  }

  /** The second half of `follow(a, b)`, after a consistent first half: `b` gains follower `a`. */
  lemma FollowSecondHalf(s: Model.Session, a: UserId, b: UserId)
    requires Model.Consistent(s, a) && b in s.user.followed
    ensures Model.AddFollower(Model.LoadUser(s.log, b), a).Ok?
    ensures var out := Model.AddFollower(Model.LoadUser(s.log, b), a).value.log;
            && Model.AllGuarded(out)
            && FindByAggregateType(out, POST) == FindByAggregateType(s.log, POST)
            && b in Model.Replay(Model.Stream(out, a)).followed
            && a in Model.Replay(Model.Stream(out, b)).followers
  {
    var lb := Model.LoadUser(s.log, b);
    Model.LoadUserConsistent(s.log, b);
    Model.CommandsKeepConsistent(lb, b, Model.Post(b, []), a);
    LoadKeepsPosts(s.log, b);
    if a !in lb.user.followers {
      UserEventKeepsPosts(lb.log, FollowerAdded(b, a));
    }
    var b' := Model.AddFollower(lb, a).value;
    if a == b {
      assert Model.Stream(s.log, a) != [] by {
        assert Model.Replay([]) == Model.Blank;
      }
      assert lb.user == s.user;
      assert b'.user.followed == s.user.followed;
    } else {
      KeepsOtherStream(s.log, b, b'.log, a);
    }
  }

  /** A user's stream once loaded: a user with no events has gained its `UserCreated`. */
  function Loaded(s: Log, id: UserId): (r: Log)
    ensures r != [] && (s != [] ==> r == s)
  {
    if s == [] then [UserCreated(id)] else s
  }

  /** Loading changes a stream only by the auto-created `UserCreated`, and the follow lists not at all. */
  lemma LoadedStream(log: Log, id: UserId)
    ensures Model.Stream(Model.LoadUser(log, id).log, id) == Loaded(Model.Stream(log, id), id)
    ensures Model.LoadUser(log, id).user.followed == Model.Replay(Model.Stream(log, id)).followed
    ensures Model.LoadUser(log, id).user.followers == Model.Replay(Model.Stream(log, id)).followers
  {
    Model.LoadOnlySetsId(log, id);
  }

  /** `follow` on a freshly loaded user adds at most its creation and one `FollowingStarted` to its stream. */
  lemma FollowStepStream(log: Log, a: UserId, b: UserId)
    requires Model.AllGuarded(log)
    ensures Model.Follow(Model.LoadUser(log, a), b).Ok?
    ensures Model.Stream(Model.Follow(Model.LoadUser(log, a), b).value.log, a)
         == Loaded(Model.Stream(log, a), a) + (if b in Model.Replay(Model.Stream(log, a)).followed then [] else [FollowingStarted(a, b)])
  {
    var l := Model.LoadUser(log, a);
    Model.LoadUserConsistent(log, a);
    LoadedStream(log, a);
    if b !in l.user.followed {
      Model.StreamAdd(l.log, FollowingStarted(a, b), a);
    } else {
      assert Model.Stream(l.log, a) + [] == Model.Stream(l.log, a);
    }
  }

  /** `addFollower` on a freshly loaded user adds at most its creation and one `FollowerAdded` to its stream. */
  lemma AddFollowerStepStream(log: Log, b: UserId, a: UserId)
    requires Model.AllGuarded(log)
    ensures Model.AddFollower(Model.LoadUser(log, b), a).Ok?
    ensures Model.Stream(Model.AddFollower(Model.LoadUser(log, b), a).value.log, b)
         == Loaded(Model.Stream(log, b), b) + (if a in Model.Replay(Model.Stream(log, b)).followers then [] else [FollowerAdded(b, a)])
  {
    var l := Model.LoadUser(log, b);
    Model.LoadUserConsistent(log, b);
    LoadedStream(log, b);
    if a !in l.user.followers {
      Model.StreamAdd(l.log, FollowerAdded(b, a), b);
    } else {
      assert Model.Stream(l.log, b) + [] == Model.Stream(l.log, b);
    }
  }

  /** `unfollow` on a freshly loaded user adds at most its creation and one `FollowingEnded` to its stream. */
  lemma UnfollowStepStream(log: Log, a: UserId, b: UserId)
    requires Model.AllGuarded(log)
    ensures Model.Unfollow(Model.LoadUser(log, a), b).Ok?
    ensures Model.Stream(Model.Unfollow(Model.LoadUser(log, a), b).value.log, a)
         == Loaded(Model.Stream(log, a), a) + (if b in Model.Replay(Model.Stream(log, a)).followed then [FollowingEnded(a, b)] else [])
  {
    var l := Model.LoadUser(log, a);
    Model.LoadUserConsistent(log, a);
    LoadedStream(log, a);
    if b in l.user.followed {
      Model.StreamAdd(l.log, FollowingEnded(a, b), a);
    } else {
      assert Model.Stream(l.log, a) + [] == Model.Stream(l.log, a);
    }
  }

  /** `removeFollower` on a freshly loaded user adds at most its creation and one `FollowerRemoved` to its stream. */
  lemma RemoveFollowerStepStream(log: Log, b: UserId, a: UserId)
    requires Model.AllGuarded(log)
    ensures Model.RemoveFollower(Model.LoadUser(log, b), a).Ok?
    ensures Model.Stream(Model.RemoveFollower(Model.LoadUser(log, b), a).value.log, b)
         == Loaded(Model.Stream(log, b), b) + (if a in Model.Replay(Model.Stream(log, b)).followers then [FollowerRemoved(b, a)] else [])
  {
    var l := Model.LoadUser(log, b);
    Model.LoadUserConsistent(log, b);
    LoadedStream(log, b);
    if a in l.user.followers {
      Model.StreamAdd(l.log, FollowerRemoved(b, a), b);
    } else {
      assert Model.Stream(l.log, b) + [] == Model.Stream(l.log, b);
    }
  }

  /** `follow(a, b)` gives the follower's stream at most its creation and one `FollowingStarted`. */
  lemma FollowerStream(st: Store, a: UserId, b: UserId)
    requires Valid(st) && a != b
    ensures Follow(st, a, b).Ok?
    ensures UserEvents(Follow(st, a, b).value.log, a)
         == Loaded(UserEvents(st.log, a), a)
            + (if b in Model.Replay(UserEvents(st.log, a)).followed then [] else [FollowingStarted(a, b)])
  {
    FollowFirstHalf(st, a, b);
    FollowStepStream(st.log, a, b);
    var a' := Model.Follow(Model.LoadUser(st.log, a), b).value;
    FollowSecondHalf(a', a, b);
    var b' := Model.AddFollower(Model.LoadUser(a'.log, b), a).value;
    KeepsOtherStream(a'.log, b, b'.log, a);
    assert Follow(st, a, b) == Ok(st.(log := b'.log));
  }


  /** `follow(a, b)` gives the followed user's stream at most its creation and one `FollowerAdded`. */
  lemma FollowedStream(st: Store, a: UserId, b: UserId)
    requires Valid(st) && a != b
    ensures Follow(st, a, b).Ok?
    ensures UserEvents(Follow(st, a, b).value.log, b)
         == Loaded(UserEvents(st.log, b), b)
            + (if a in Model.Replay(UserEvents(st.log, b)).followers then [] else [FollowerAdded(b, a)])
  {
    FollowFirstHalf(st, a, b);
    var a' := Model.Follow(Model.LoadUser(st.log, a), b).value;
    KeepsOtherStream(st.log, a, a'.log, b);
    AddFollowerStepStream(a'.log, b, a);
    var b' := Model.AddFollower(Model.LoadUser(a'.log, b), a).value;
    assert Follow(st, a, b) == Ok(st.(log := b'.log));
  }


  /** `follow(a, b)` on a valid store succeeds, keeps it valid, and links both sides. */
  /** The core of `follow(a, b)` on a valid store: it succeeds, keeps the store valid and the post category, and sets the link. */
  lemma FollowLinks(st: Store, a: UserId, b: UserId)
    requires Valid(st)
    ensures Follow(st, a, b).Ok?
    ensures Valid(Follow(st, a, b).value)
    ensures FindByAggregateType(Follow(st, a, b).value.log, POST) == FindByAggregateType(st.log, POST)
    ensures b in Model.Replay(UserEvents(Follow(st, a, b).value.log, a)).followed
    ensures a in Model.Replay(UserEvents(Follow(st, a, b).value.log, b)).followers
  {
    FollowFirstHalf(st, a, b);
    var a' := Model.Follow(Model.LoadUser(st.log, a), b).value;
    FollowSecondHalf(a', a, b);
    var b' := Model.AddFollower(Model.LoadUser(a'.log, b), a).value;
    assert Follow(st, a, b) == Ok(st.(log := b'.log));
    PostIdsBelowByCategory(st.log, b'.log, st.counter);
  }

  /** `follow(a, b)` leaves the stream of every user other than `a` and `b` alone. */
  lemma FollowKeepsOthers(st: Store, a: UserId, b: UserId)
    requires Valid(st)
    ensures Follow(st, a, b).Ok?
    ensures forall g :: g != a && g != b ==> UserEvents(Follow(st, a, b).value.log, g) == UserEvents(st.log, g)
  {
    FollowFirstHalf(st, a, b);
    var a' := Model.Follow(Model.LoadUser(st.log, a), b).value;
    FollowSecondHalf(a', a, b);
    var b' := Model.AddFollower(Model.LoadUser(a'.log, b), a).value;
    assert Follow(st, a, b) == Ok(st.(log := b'.log));
    forall g | g != a && g != b
      ensures UserEvents(b'.log, g) == UserEvents(st.log, g)
    {
      KeepsOtherStream(st.log, a, a'.log, g);
      KeepsOtherStream(a'.log, b, b'.log, g);
    }
  }

  lemma FollowEffects(st: Store, a: UserId, b: UserId)
    requires Valid(st)
    ensures Follow(st, a, b).Ok?
    ensures Valid(Follow(st, a, b).value)
    ensures FindByAggregateType(Follow(st, a, b).value.log, POST) == FindByAggregateType(st.log, POST)
    ensures b in Model.Replay(UserEvents(Follow(st, a, b).value.log, a)).followed
    ensures a in Model.Replay(UserEvents(Follow(st, a, b).value.log, b)).followers
    ensures forall g :: g != a && g != b ==> UserEvents(Follow(st, a, b).value.log, g) == UserEvents(st.log, g)
    ensures a != b ==>
              UserEvents(Follow(st, a, b).value.log, a)
              == Loaded(UserEvents(st.log, a), a)
                 + (if b in Model.Replay(UserEvents(st.log, a)).followed then [] else [FollowingStarted(a, b)])
    ensures a != b ==>
              UserEvents(Follow(st, a, b).value.log, b)
              == Loaded(UserEvents(st.log, b), b)
                 + (if a in Model.Replay(UserEvents(st.log, b)).followers then [] else [FollowerAdded(b, a)])
  {
    FollowLinks(st, a, b);
    FollowKeepsOthers(st, a, b);
    if a != b {
      FollowerStream(st, a, b);
      FollowedStream(st, a, b);
    }
  }


  /** The first half of `unfollow(a, b)` on a valid store: `a` no longer follows `b`, consistently. */
  lemma UnfollowFirstHalf(st: Store, a: UserId, b: UserId)
    requires Valid(st)
    ensures Model.Unfollow(Model.LoadUser(st.log, a), b).Ok?
    ensures var a' := Model.Unfollow(Model.LoadUser(st.log, a), b).value;
            && Model.Consistent(a', a)
            && b !in a'.user.followed
            && FindByAggregateType(a'.log, POST) == FindByAggregateType(st.log, POST)
  {
    var la := Model.LoadUser(st.log, a);
    Model.LoadUserConsistent(st.log, a);
    Model.GuardedFacts(Model.Stream(la.log, a));
    Model.CommandsKeepConsistent(la, a, Model.Post(a, []), b);
    LoadKeepsPosts(st.log, a);
    if b in la.user.followed {
      UserEventKeepsPosts(la.log, FollowingEnded(a, b));
    }
  }

  /** The second half of `unfollow(a, b)`, after a consistent first half: `b` loses follower `a`. */
  lemma UnfollowSecondHalf(s: Model.Session, a: UserId, b: UserId)
    requires Model.Consistent(s, a) && b !in s.user.followed
    ensures Model.RemoveFollower(Model.LoadUser(s.log, b), a).Ok?
    ensures var out := Model.RemoveFollower(Model.LoadUser(s.log, b), a).value.log;
            && Model.AllGuarded(out)
            && FindByAggregateType(out, POST) == FindByAggregateType(s.log, POST)
            && b !in Model.Replay(Model.Stream(out, a)).followed
            && a !in Model.Replay(Model.Stream(out, b)).followers
  {
    var lb := Model.LoadUser(s.log, b);
    Model.LoadUserConsistent(s.log, b);
    Model.GuardedFacts(Model.Stream(lb.log, b));
    Model.CommandsKeepConsistent(lb, b, Model.Post(b, []), a);
    LoadKeepsPosts(s.log, b);
    if a in lb.user.followers {
      UserEventKeepsPosts(lb.log, FollowerRemoved(b, a));
    }
    var b' := Model.RemoveFollower(lb, a).value;
    if a == b {
      Model.LoadOnlySetsId(s.log, a);
      assert b'.user.followed == lb.user.followed;
    } else {
      KeepsOtherStream(s.log, b, b'.log, a);
    }
  }

  /** `unfollow(a, b)` gives the follower's stream at most its creation and one `FollowingEnded`. */
  lemma UnfollowerStream(st: Store, a: UserId, b: UserId)
    requires Valid(st) && a != b
    ensures Unfollow(st, a, b).Ok?
    ensures UserEvents(Unfollow(st, a, b).value.log, a)
         == Loaded(UserEvents(st.log, a), a)
            + (if b in Model.Replay(UserEvents(st.log, a)).followed then [FollowingEnded(a, b)] else [])
  {
    UnfollowFirstHalf(st, a, b);
    UnfollowStepStream(st.log, a, b);
    var a' := Model.Unfollow(Model.LoadUser(st.log, a), b).value;
    UnfollowSecondHalf(a', a, b);
    var b' := Model.RemoveFollower(Model.LoadUser(a'.log, b), a).value;
    KeepsOtherStream(a'.log, b, b'.log, a);
    assert Unfollow(st, a, b) == Ok(st.(log := b'.log));
  }


  /** `unfollow(a, b)` gives the followed user's stream at most its creation and one `FollowerRemoved`. */
  lemma UnfollowedStream(st: Store, a: UserId, b: UserId)
    requires Valid(st) && a != b
    ensures Unfollow(st, a, b).Ok?
    ensures UserEvents(Unfollow(st, a, b).value.log, b)
         == Loaded(UserEvents(st.log, b), b)
            + (if a in Model.Replay(UserEvents(st.log, b)).followers then [FollowerRemoved(b, a)] else [])
  {
    UnfollowFirstHalf(st, a, b);
    var a' := Model.Unfollow(Model.LoadUser(st.log, a), b).value;
    KeepsOtherStream(st.log, a, a'.log, b);
    RemoveFollowerStepStream(a'.log, b, a);
    var b' := Model.RemoveFollower(Model.LoadUser(a'.log, b), a).value;
    assert Unfollow(st, a, b) == Ok(st.(log := b'.log));
  }


  /** `unfollow(a, b)` on a valid store succeeds, keeps it valid, and unlinks both sides. */
  /** The core of `unfollow(a, b)` on a valid store: it succeeds, keeps the store valid and the post category, and sets the link. */
  lemma UnfollowLinks(st: Store, a: UserId, b: UserId)
    requires Valid(st)
    ensures Unfollow(st, a, b).Ok?
    ensures Valid(Unfollow(st, a, b).value)
    ensures FindByAggregateType(Unfollow(st, a, b).value.log, POST) == FindByAggregateType(st.log, POST)
    ensures b !in Model.Replay(UserEvents(Unfollow(st, a, b).value.log, a)).followed
    ensures a !in Model.Replay(UserEvents(Unfollow(st, a, b).value.log, b)).followers
  {
    UnfollowFirstHalf(st, a, b);
    var a' := Model.Unfollow(Model.LoadUser(st.log, a), b).value;
    UnfollowSecondHalf(a', a, b);
    var b' := Model.RemoveFollower(Model.LoadUser(a'.log, b), a).value;
    assert Unfollow(st, a, b) == Ok(st.(log := b'.log));
    PostIdsBelowByCategory(st.log, b'.log, st.counter);
  }

  /** `unfollow(a, b)` leaves the stream of every user other than `a` and `b` alone. */
  lemma UnfollowKeepsOthers(st: Store, a: UserId, b: UserId)
    requires Valid(st)
    ensures Unfollow(st, a, b).Ok?
    ensures forall g :: g != a && g != b ==> UserEvents(Unfollow(st, a, b).value.log, g) == UserEvents(st.log, g)
  {
    UnfollowFirstHalf(st, a, b);
    var a' := Model.Unfollow(Model.LoadUser(st.log, a), b).value;
    UnfollowSecondHalf(a', a, b);
    var b' := Model.RemoveFollower(Model.LoadUser(a'.log, b), a).value;
    assert Unfollow(st, a, b) == Ok(st.(log := b'.log));
    forall g | g != a && g != b
      ensures UserEvents(b'.log, g) == UserEvents(st.log, g)
    {
      KeepsOtherStream(st.log, a, a'.log, g);
      KeepsOtherStream(a'.log, b, b'.log, g);
    }
  }

  lemma UnfollowEffects(st: Store, a: UserId, b: UserId)
    requires Valid(st)
    ensures Unfollow(st, a, b).Ok?
    ensures Valid(Unfollow(st, a, b).value)
    ensures FindByAggregateType(Unfollow(st, a, b).value.log, POST) == FindByAggregateType(st.log, POST)
    ensures b !in Model.Replay(UserEvents(Unfollow(st, a, b).value.log, a)).followed
    ensures a !in Model.Replay(UserEvents(Unfollow(st, a, b).value.log, b)).followers
    ensures forall g :: g != a && g != b ==> UserEvents(Unfollow(st, a, b).value.log, g) == UserEvents(st.log, g)
    ensures a != b ==>
              UserEvents(Unfollow(st, a, b).value.log, a)
              == Loaded(UserEvents(st.log, a), a)
                 + (if b in Model.Replay(UserEvents(st.log, a)).followed then [FollowingEnded(a, b)] else [])
    ensures a != b ==>
              UserEvents(Unfollow(st, a, b).value.log, b)
              == Loaded(UserEvents(st.log, b), b)
                 + (if a in Model.Replay(UserEvents(st.log, b)).followers then [FollowerRemoved(b, a)] else [])
  {
    UnfollowLinks(st, a, b);
    UnfollowKeepsOthers(st, a, b);
    if a != b {
      UnfollowerStream(st, a, b);
      UnfollowedStream(st, a, b);
    }
  }


  /** `post` by a user with no events first creates that user; with no followers nothing is delivered. */
  lemma PostCreatesAuthor(st: Store, b: UserId, text: string)
    requires UserEvents(st.log, b) == []
    ensures SubmitPost(st, b, text).Ok?
    ensures SubmitPost(st, b, text).value.0.log
         == st.log + [UserCreated(b), PostCreated(PostId(st.counter + 1), b, text), PostSent(b, text)]
  {
    Model.LoadOnlySetsId(st.log, b);
    PostUnfolds(st, b, text);
    assert Model.LoadUser(st.log, b).user.followers == [];
  }

  /** Being followed is enough to exist: a user with no events ends up created, with one follower. */
  lemma FollowCreatesFollowed(st: Store, a: UserId, c: UserId)
    requires Valid(st)
    requires a != c && UserEvents(st.log, c) == []
    ensures Follow(st, a, c).Ok?
    ensures UserEvents(Follow(st, a, c).value.log, c) == [UserCreated(c), FollowerAdded(c, a)]
  {
    FollowFirstHalf(st, a, c);
    var la := Model.LoadUser(st.log, a);
    Model.LoadUserConsistent(st.log, a);
    var a' := Model.Follow(la, c).value;
    KeepsOtherStream(st.log, a, a'.log, c);
    FirstFollower(a'.log, a, c);
  }

  /** A user with no events, once followed, has been created and has exactly that one follower. */
  lemma FirstFollower(log: Log, a: UserId, c: UserId)
    requires Model.Stream(log, c) == []
    ensures Model.AddFollower(Model.LoadUser(log, c), a).Ok?
    ensures Model.Stream(Model.AddFollower(Model.LoadUser(log, c), a).value.log, c)
         == [UserCreated(c), FollowerAdded(c, a)]
  {
    var lc := Model.LoadUser(log, c);
    Model.LoadOnlySetsId(log, c);
    assert lc.user.followers == [];
    Model.StreamAdd(lc.log, FollowerAdded(c, a), c);
  }
}
