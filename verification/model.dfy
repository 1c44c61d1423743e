/**
 * The user aggregate: its state is the fold of its own event stream; its commands check a guard
 * against that state, publish at most one event and fold it in at once. Also the two repositories:
 * loading a user by replay (creating it on first use) and creating posts from a counter.
 */
module Model {
  import opened Lists
  import opened Results
  import opened Events
  import opened Projection

  datatype Post = Post(author: UserId, text: string)

  /** The in-memory state of one user: `id` stays unset until a `UserCreated` is folded in. */
  datatype User = User(
    id: Option<UserId>,
    followed: seq<UserId>,
    followers: seq<UserId>,
    wall: seq<Post>,
    timeline: seq<Post>)

  /** A freshly constructed user object, before replay. */
  const Blank: User := User(None, [], [], [], [])

  /**
   * The aggregate's `on` handlers as reached through the fallback dispatch: an event kind the
   * user has no handler for leaves it as it was.
   */
  function On(u: User, e: Event): (r: User)
    ensures !IsUserEvent(e) ==> r == u
    ensures !e.UserCreated? ==> r.id == u.id
  {
    match e
    case UserCreated(id) => u.(id := Some(id))
    case PostSent(id, m) => u.(wall := u.wall + [Post(id, m)])
    case PostReceived(_, a, m) => u.(timeline := u.timeline + [Post(a, m)])
    case FollowingStarted(_, x) => u.(followed := u.followed + [x])
    case FollowingEnded(_, x) => u.(followed := RemoveFirst(u.followed, x))
    case FollowerAdded(_, x) => u.(followers := u.followers + [x])
    case FollowerRemoved(_, x) => u.(followers := RemoveFirst(u.followers, x))
    case PostCreated(_, _, _) => u
    case PostEvent(_) => u
  }

  /**
   * Replay: the fold of an event stream starting from a blank user. An id, once set, names the
   * user of one of the stream's `UserCreated` events.
   */
  function Replay(s: Log): (r: User)
    ensures r.id.Some? ==> UserCreated(r.id.value) in s
  {
    FoldIdSource(Blank, s);
    Reduce(Blank, s, On)
  }

  /** A folded id is the initial one or comes from a `UserCreated` of the slice. */
  lemma {:induction false} FoldIdSource(u: User, s: Log)
    ensures Reduce(u, s, On).id.None? <==> u.id.None? && forall e :: e in s ==> !e.UserCreated?
    ensures Reduce(u, s, On).id.Some? ==> Reduce(u, s, On).id == u.id || UserCreated(Reduce(u, s, On).id.value) in s
    decreases |s|
  {
    if s != [] {
      FoldIdSource(On(u, s[0]), s[1..]);
      assert s == [s[0]] + s[1..];
    }
  }

  /** The stream of user `id`: the events whose aggregate id is (USER, id). */
  function Stream(log: Log, id: UserId): Log {
    FindByAggregateId(log, UserAggregate(id))
  }

  lemma StreamBelongs(log: Log, id: UserId)
    ensures forall e :: e in Stream(log, id) ==> IsUserEvent(e) && e.user == id
  {
    forall e | e in Stream(log, id)
      ensures IsUserEvent(e) && e.user == id
    {
      BelongsToUser(e, id);
    }
  }

  /** Appending an event extends exactly the stream of the user it is about. */
  lemma StreamAdd(log: Log, e: Event, id: UserId)
    ensures Stream(Add(log, e), id)
         == Stream(log, id) + (if IsUserEvent(e) && e.user == id then [e] else [])
  {
    SelectAdd(log, e, ById(UserAggregate(id)));
    BelongsToUser(e, id);
  }

  /** Over one user's events the id ends up set exactly when a `UserCreated` was among them. */
  lemma {:induction false} FoldId(u: User, s: Log, id: UserId)
    requires forall e :: e in s ==> IsUserEvent(e) && e.user == id
    ensures Reduce(u, s, On).id == (if UserCreated(id) in s then Some(id) else u.id)
    decreases |s|
  {
    if s != [] {
      assert s == [s[0]] + s[1..];
      FoldId(On(u, s[0]), s[1..], id);
    }
  }

  // ---------------------------------------------------------------------------
  // UserRepository and PostRepository

  /** A log together with a loaded (or updated) user object. */
  datatype Session = Session(log: Log, user: User)

  /**
   * `UserRepository.user`: replays the user's stream; if the stream is empty it first publishes
   * `UserCreated(id)` and replays that single event instead.
   */
  function LoadUser(log: Log, id: UserId): (r: Session)
    ensures Stream(log, id) == [] ==> r.log == Add(log, UserCreated(id))
    ensures Stream(log, id) == [] ==> Stream(r.log, id) == [UserCreated(id)]
    ensures Stream(log, id) != [] ==> r.log == log
    ensures r.user == Replay(Stream(r.log, id))
    ensures r.user.id == (if UserCreated(id) in Stream(r.log, id) then Some(id) else None)
  {
    var events := Stream(log, id);
    if events == [] then
      var e := UserCreated(id);
      StreamAdd(log, e, id);
      FoldId(Blank, [e], id);
      Session(Emit(log, e), Replay([e]))
    else
      StreamBelongs(log, id);
      FoldId(Blank, events, id);
      Session(log, Replay(events))
  }

  /** Apart from the id, the loaded user is the replay of the stream as it was before the load. */
  lemma LoadOnlySetsId(log: Log, id: UserId)
    ensures LoadUser(log, id).user.(id := None) == Replay(Stream(log, id)).(id := None)
  {
    if Stream(log, id) == [] {
      ReduceSnoc(Blank, [], UserCreated(id), On);
      assert [] + [UserCreated(id)] == [UserCreated(id)];
    }
  }

  /** Loading a user twice publishes at most one `UserCreated`: the second load changes nothing. */
  lemma LoadTwice(log: Log, id: UserId)
    ensures LoadUser(LoadUser(log, id).log, id).log == LoadUser(log, id).log
    ensures LoadUser(LoadUser(log, id).log, id).user == LoadUser(log, id).user
  {
  }

  /** Every post event of the log carries an id no larger than `n`. */
  ghost predicate PostIdsBelow(log: Log, n: nat) {
    forall e :: e in log && !IsUserEvent(e) ==> e.post.id <= n
  }

  /** What `PostRepository.create` leaves behind: the log, the counter and the new id. */
  datatype Created = Created(log: Log, counter: nat, id: PostId)

  /**
   * `PostRepository.create`: increments the counter first (ids run 1, 2, 3, ...) and publishes
   * `PostCreated` with that id, the publisher and the text. While the counter bounds every post id
   * in the log, the new id belongs to no earlier event and the bound is kept.
   */
  function CreatePost(log: Log, counter: nat, publisher: UserId, text: string): (r: Created)
    ensures r.counter == counter + 1 && r.id == PostId(r.counter)
    ensures r.log == Add(log, PostCreated(r.id, publisher, text))
    ensures PostIdsBelow(log, counter) ==> FindByAggregateId(log, PostAggregate(r.id)) == []
    ensures PostIdsBelow(log, counter) ==> PostIdsBelow(r.log, r.counter)
  {
    var id := PostId(counter + 1);
    var e := PostCreated(id, publisher, text);
    NextIdUnused(log, counter);
    Created(Emit(log, e), counter + 1, id)
  }

  /** While the counter bounds every post id in the log, the next id names no aggregate of the log. */
  lemma NextIdUnused(log: Log, counter: nat)
    ensures PostIdsBelow(log, counter) ==> FindByAggregateId(log, PostAggregate(PostId(counter + 1))) == []
  {
    var found := FindByAggregateId(log, PostAggregate(PostId(counter + 1)));
    assert PostIdsBelow(log, counter) ==> forall f :: f in log ==> AggregateOf(f) != PostAggregate(PostId(counter + 1));
    assert found != [] ==> found[0] in found;
  }

  /** Two creations in a row hand out consecutive, strictly increasing ids. */
  lemma CreateIdsIncrease(log: Log, counter: nat, a: UserId, t: string, b: UserId, u: string)
    ensures var first := CreatePost(log, counter, a, t);
            var second := CreatePost(first.log, first.counter, b, u);
            first.id.id < second.id.id && second.id.id == first.id.id + 1
  {
  }

  // ---------------------------------------------------------------------------
  // The aggregate's commands

  /** What the source does on `userId!!` when no `UserCreated` has been folded in. */
  datatype Fault = UserIdUnset

  /** `apply`: publish the event (one `add`), then fold it into the in-memory state. */
  function Apply(s: Session, e: Event): (r: Session)
    ensures r.log == Add(s.log, e)
    ensures r.user == On(s.user, e)
  {
    Session(Emit(s.log, e), On(s.user, e))
  }

  /** `post`: a `PostSent` with the post's text goes on the user's own wall. */
  function PostMessage(s: Session, p: Post): (r: Result<Session, Fault>)
    ensures r.Err? <==> s.user.id.None?
    ensures r.Ok? ==> r.value.log == Add(s.log, PostSent(s.user.id.value, p.text))
    ensures r.Ok? ==> r.value.user == s.user.(wall := s.user.wall + [Post(s.user.id.value, p.text)])
  {
    match s.user.id
    case None => Err(UserIdUnset)
    case Some(id) => Ok(Apply(s, PostSent(id, p.text)))
  }

  /** `receive`: a `PostReceived` carrying the post's author and text goes on the timeline. */
  function Receive(s: Session, p: Post): (r: Result<Session, Fault>)
    ensures r.Err? <==> s.user.id.None?
    ensures r.Ok? ==> r.value.log == Add(s.log, PostReceived(s.user.id.value, p.author, p.text))
    ensures r.Ok? ==> r.value.user == s.user.(timeline := s.user.timeline + [p])
  {
    match s.user.id
    case None => Err(UserIdUnset)
    case Some(id) => Ok(Apply(s, PostReceived(id, p.author, p.text)))
  }

  /** `follow`: emits `FollowingStarted(x)` only if `x` is not followed yet. */
  function Follow(s: Session, x: UserId): (r: Result<Session, Fault>)
    ensures x in s.user.followed ==> r == Ok(s)
    ensures x !in s.user.followed ==> (r.Err? <==> s.user.id.None?)
    ensures x !in s.user.followed && r.Ok? ==>
      && r.value.log == Add(s.log, FollowingStarted(s.user.id.value, x))
      && r.value.user == s.user.(followed := s.user.followed + [x])
    ensures r.Ok? ==> x in r.value.user.followed
  {
    if x in s.user.followed then Ok(s)
    else
      match s.user.id
      case None => Err(UserIdUnset)
      case Some(id) => Ok(Apply(s, FollowingStarted(id, x)))
  }

  /** `unfollow`: emits `FollowingEnded(x)` only if `x` is followed, and drops it from the list. */
  function Unfollow(s: Session, x: UserId): (r: Result<Session, Fault>)
    ensures x !in s.user.followed ==> r == Ok(s)
    ensures x in s.user.followed ==> (r.Err? <==> s.user.id.None?)
    ensures x in s.user.followed && r.Ok? ==>
      && r.value.log == Add(s.log, FollowingEnded(s.user.id.value, x))
      && r.value.user == s.user.(followed := RemoveFirst(s.user.followed, x))
    ensures r.Ok? && NoDup(s.user.followed) ==> x !in r.value.user.followed
  {
    if x !in s.user.followed then Ok(s)
    else
      match s.user.id
      case None => Err(UserIdUnset)
      case Some(id) =>
        RemoveFirstNoDupIf(s.user.followed, x);
        Ok(Apply(s, FollowingEnded(id, x)))
  }

  /** `addFollower`: emits `FollowerAdded(x)` only if `x` is not a follower yet. */
  function AddFollower(s: Session, x: UserId): (r: Result<Session, Fault>)
    ensures x in s.user.followers ==> r == Ok(s)
    ensures x !in s.user.followers ==> (r.Err? <==> s.user.id.None?)
    ensures x !in s.user.followers && r.Ok? ==>
      && r.value.log == Add(s.log, FollowerAdded(s.user.id.value, x))
      && r.value.user == s.user.(followers := s.user.followers + [x])
    ensures r.Ok? ==> x in r.value.user.followers
  {
    if x in s.user.followers then Ok(s)
    else
      match s.user.id
      case None => Err(UserIdUnset)
      case Some(id) => Ok(Apply(s, FollowerAdded(id, x)))
  }

  /** `removeFollower`: emits `FollowerRemoved(x)` only if `x` is a follower, and drops it. */
  function RemoveFollower(s: Session, x: UserId): (r: Result<Session, Fault>)
    ensures x !in s.user.followers ==> r == Ok(s)
    ensures x in s.user.followers ==> (r.Err? <==> s.user.id.None?)
    ensures x in s.user.followers && r.Ok? ==>
      && r.value.log == Add(s.log, FollowerRemoved(s.user.id.value, x))
      && r.value.user == s.user.(followers := RemoveFirst(s.user.followers, x))
    ensures r.Ok? && NoDup(s.user.followers) ==> x !in r.value.user.followers
  {
    if x !in s.user.followers then Ok(s)
    else
      match s.user.id
      case None => Err(UserIdUnset)
      case Some(id) =>
        RemoveFirstNoDupIf(s.user.followers, x);
        Ok(Apply(s, FollowerRemoved(id, x)))
  }

  lemma RemoveFirstNoDupIf(s: seq<UserId>, x: UserId)
    ensures NoDup(s) ==> x !in RemoveFirst(s, x) && NoDup(RemoveFirst(s, x))
  {
    if NoDup(s) {
      RemoveFirstNoDup(s, x);
    }
  }

  /** A second `follow` of the same user emits nothing. */
  lemma FollowTwice(s: Session, x: UserId)
    requires Follow(s, x).Ok?
    ensures Follow(Follow(s, x).value, x) == Follow(s, x)
  {
  }

  /** A second `addFollower` of the same user emits nothing. */
  lemma AddFollowerTwice(s: Session, x: UserId)
    requires AddFollower(s, x).Ok?
    ensures AddFollower(AddFollower(s, x).value, x) == AddFollower(s, x)
  {
  }

  // ---------------------------------------------------------------------------
  // The invariant the guards establish

  /** Whether the guards let the aggregate, in state `u`, emit `e`. */
  ghost predicate Allowed(u: User, e: Event) {
    match e
    case UserCreated(_) => u.id.None?
    case PostSent(_, _) => u.id.Some?
    case PostReceived(_, _, _) => u.id.Some?
    case FollowingStarted(_, x) => u.id.Some? && x !in u.followed
    case FollowingEnded(_, x) => u.id.Some? && x in u.followed
    case FollowerAdded(_, x) => u.id.Some? && x !in u.followers
    case FollowerRemoved(_, x) => u.id.Some? && x in u.followers
    case PostCreated(_, _, _) => false
    case PostEvent(_) => false
  }

  /** A stream each of whose events the guards allowed at the point it was appended. */
  ghost predicate Guarded(s: Log)
    decreases |s|
  {
    s == [] || (Guarded(s[..|s| - 1]) && Allowed(Replay(s[..|s| - 1]), s[|s| - 1]))
  }

  /** Every user's stream is guarded. */
  ghost predicate AllGuarded(log: Log) {
    forall w :: Guarded(Stream(log, w))
  }

  /** The session's user is the replay of its stream, and the whole log is guarded. */
  ghost predicate Consistent(s: Session, id: UserId) {
    s.user == Replay(Stream(s.log, id)) && AllGuarded(s.log)
  }

  /** A guarded stream starts with `UserCreated`, and its follow lists hold no duplicates. */
  lemma {:induction false} GuardedFacts(s: Log)
    requires Guarded(s)
    ensures s != [] ==> Replay(s).id.Some?
    ensures NoDup(Replay(s).followed) && NoDup(Replay(s).followers)
    decreases |s|
  {
    if s != [] {
      var p := s[..|s| - 1];
      var e := s[|s| - 1];
      assert s == p + [e];
      GuardedFacts(p);
      ReduceSnoc(Blank, p, e, On);
      AllowedStep(Replay(p), e);
    }
  }

  /** One step the guards allow leaves a user with an id and keeps its follow lists duplicate-free. */
  lemma AllowedStep(u: User, e: Event)
    requires Allowed(u, e)
    requires NoDup(u.followed) && NoDup(u.followers)
    ensures On(u, e).id.Some?
    ensures NoDup(On(u, e).followed) && NoDup(On(u, e).followers)
  {
    match e
    case FollowingStarted(_, x) => NoDupSnoc(u.followed, x);
    case FollowingEnded(_, x) => RemoveFirstNoDup(u.followed, x);
    case FollowerAdded(_, x) => NoDupSnoc(u.followers, x);
    case FollowerRemoved(_, x) => RemoveFirstNoDup(u.followers, x);
    case _ =>
  }

  /** Appending an event the guards allow keeps every stream guarded. */
  lemma StepKeepsGuarded(log: Log, e: Event, id: UserId)
    requires AllGuarded(log)
    requires IsUserEvent(e) && e.user == id
    requires Allowed(Replay(Stream(log, id)), e)
    ensures AllGuarded(Add(log, e))
  {
    forall w
      ensures Guarded(Stream(Add(log, e), w))
    {
      StreamAdd(log, e, w);
      var s := Stream(log, w);
      assert Guarded(s);
      if w == id {
        var s' := s + [e];
        assert s'[..|s'| - 1] == s;
        assert s'[|s'| - 1] == e;
        assert Guarded(s');
        assert Stream(Add(log, e), w) == s';
      } else {
        assert Stream(Add(log, e), w) == s + [];
        assert s + [] == s;
      }
    }
  }

  /** A post event touches no user's stream. */
  lemma PostEventKeepsStreams(log: Log, e: Event)
    requires !IsUserEvent(e)
    ensures forall w :: Stream(Add(log, e), w) == Stream(log, w)
    ensures AllGuarded(log) ==> AllGuarded(Add(log, e))
  {
    forall w
      ensures Stream(Add(log, e), w) == Stream(log, w)
    {
      StreamAdd(log, e, w);
    }
  }

  /**
   * The in-memory state `apply` keeps equals the replay of the log: folding the event into the
   * state agrees with appending it to the stream.
   */
  lemma ApplyKeepsReplay(s: Session, e: Event, id: UserId)
    requires s.user == Replay(Stream(s.log, id))
    requires IsUserEvent(e) && e.user == id
    ensures Apply(s, e).user == Replay(Stream(Apply(s, e).log, id))
    ensures forall w :: w != id ==> Stream(Apply(s, e).log, w) == Stream(s.log, w)
  {
    StreamAdd(s.log, e, id);
    ReduceSnoc(Blank, Stream(s.log, id), e, On);
    forall w | w != id
      ensures Stream(Apply(s, e).log, w) == Stream(s.log, w)
    {
      StreamAdd(s.log, e, w);
    }
  }

  /** Loading keeps every stream guarded, and the loaded user has its id set. */
  lemma LoadUserConsistent(log: Log, id: UserId)
    requires AllGuarded(log)
    ensures Consistent(LoadUser(log, id), id)
    ensures LoadUser(log, id).user.id == Some(id)
  {
    var s := Stream(log, id);
    if s == [] {
      assert Replay(s) == Blank;
      StepKeepsGuarded(log, UserCreated(id), id);
    } else {
      assert Guarded(s);
      GuardedFacts(s);
    }
  }

  /** On a consistent session with its id set, each command succeeds and keeps consistency. */
  lemma CommandsKeepConsistent(s: Session, id: UserId, p: Post, x: UserId)
    requires Consistent(s, id) && s.user.id == Some(id)
    ensures PostMessage(s, p).Ok? && Consistent(PostMessage(s, p).value, id)
    ensures Receive(s, p).Ok? && Consistent(Receive(s, p).value, id)
    ensures Follow(s, x).Ok? && Consistent(Follow(s, x).value, id)
    ensures Unfollow(s, x).Ok? && Consistent(Unfollow(s, x).value, id)
    ensures AddFollower(s, x).Ok? && Consistent(AddFollower(s, x).value, id)
    ensures RemoveFollower(s, x).Ok? && Consistent(RemoveFollower(s, x).value, id)
  {
    ApplyConsistent(s, PostSent(id, p.text), id);
    ApplyConsistent(s, PostReceived(id, p.author, p.text), id);
    if x !in s.user.followed {
      ApplyConsistent(s, FollowingStarted(id, x), id);
    } else {
      ApplyConsistent(s, FollowingEnded(id, x), id);
    }
    if x !in s.user.followers {
      ApplyConsistent(s, FollowerAdded(id, x), id);
    } else {
      ApplyConsistent(s, FollowerRemoved(id, x), id);
    }
  }

  lemma ApplyConsistent(s: Session, e: Event, id: UserId)
    requires Consistent(s, id)
    requires IsUserEvent(e) && e.user == id && Allowed(s.user, e)
    ensures Consistent(Apply(s, e), id)
  {
    ApplyKeepsReplay(s, e, id);
    StepKeepsGuarded(s.log, e, id);
  }
}
