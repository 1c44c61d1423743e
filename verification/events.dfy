/**
 * The event catalogue, the append-only in-memory event log with its two queries, and the
 * synchronous event bus.
 */
module Events {
  import opened Lists

  datatype UserId = UserId(name: string)

  /** Post ids come from a counter; timestamps are not modelled. */
  datatype PostId = PostId(id: nat)

  datatype AggregateType = USER | POST

  /** The key of an aggregate id is a user id for users and a post id for posts. */
  datatype Key = UserKey(user: UserId) | PostKey(post: PostId)

  datatype AggregateId = AggregateId(kind: AggregateType, key: Key)

  function UserAggregate(u: UserId): AggregateId {
    AggregateId(USER, UserKey(u))
  }

  function PostAggregate(p: PostId): AggregateId {
    AggregateId(POST, PostKey(p))
  }

  /**
   * Every event kind of the system. The first seven are user events keyed by `user`;
   * `PostCreated` and the bare `PostEvent` (its base class can be instantiated on its own)
   * are post events keyed by `post`.
   */
  datatype Event =
    | UserCreated(user: UserId)
    | FollowerAdded(user: UserId, follower: UserId)
    | FollowerRemoved(user: UserId, follower: UserId)
    | FollowingStarted(user: UserId, followed: UserId)
    | FollowingEnded(user: UserId, followed: UserId)
    | PostSent(user: UserId, message: string)
    | PostReceived(user: UserId, author: UserId, message: string)
    | PostCreated(post: PostId, author: UserId, text: string)
    | PostEvent(post: PostId)

  predicate IsUserEvent(e: Event) {
    !e.PostCreated? && !e.PostEvent?
  }

  /** The aggregate an event belongs to. */
  function AggregateOf(e: Event): (r: AggregateId)
    ensures r.kind == USER <==> IsUserEvent(e)
    ensures r.kind == USER ==> r.key == UserKey(e.user)
    ensures r.kind == POST ==> r.key == PostKey(e.post)
  {
    if IsUserEvent(e) then UserAggregate(e.user) else PostAggregate(e.post)
  }

  /** An event belongs to the aggregate of user `u` exactly when it is a user event about `u`. */
  lemma BelongsToUser(e: Event, u: UserId)
    ensures AggregateOf(e) == UserAggregate(u) <==> IsUserEvent(e) && e.user == u
  {
  }

  type Log = seq<Event>

  // ---------------------------------------------------------------------------
  // The event repository

  /** `add`: the new event goes at the end, every earlier event stays where it was. */
  function Add(log: Log, e: Event): (r: Log)
    ensures |r| == |log| + 1
    ensures r[..|log|] == log
    ensures r[|log|] == e
  {
    log + [e]
  }

  /** The two queries of the repository: by aggregate id, and by aggregate category. */
  datatype Query = ById(id: AggregateId) | ByType(kind: AggregateType)

  predicate Matches(q: Query, e: Event) {
    match q
    case ById(id) => AggregateOf(e) == id
    case ByType(t) => AggregateOf(e).kind == t
  }

  /** A scan of the whole log keeping the events the query matches, in insertion order. */
  function Select(log: Log, q: Query): (r: Log)
    ensures forall e :: e in r <==> e in log && Matches(q, e)
    ensures |r| <= |log|
    decreases |log|
  {
    if log == [] then []
    else
      var rest := Select(log[1..], q);
      assert log == [log[0]] + log[1..];
      if Matches(q, log[0]) then [log[0]] + rest else rest
  }

  /** A query keeps the insertion order: its answer is a subsequence of the log. */
  lemma {:induction false} SelectKeepsOrder(log: Log, q: Query)
    ensures IsSubsequence(Select(log, q), log)
    decreases |log|
  {
    if log != [] {
      SelectKeepsOrder(log[1..], q);
      var rest := Select(log[1..], q);
      if Matches(q, log[0]) {
        assert ([log[0]] + rest)[1..] == rest;
      }
    }
  }

  /** `findByAggregateId`: the aggregate's own events, in the order they were appended. */
  function FindByAggregateId(log: Log, id: AggregateId): (r: Log)
    ensures forall e :: e in r <==> e in log && AggregateOf(e) == id
    ensures IsSubsequence(r, log)
  {
    SelectKeepsOrder(log, ById(id));
    Select(log, ById(id))
  }

  /** `findByAggregateType`: the events of one category, in the order they were appended. */
  function FindByAggregateType(log: Log, t: AggregateType): (r: Log)
    ensures forall e :: e in r <==> e in log && AggregateOf(e).kind == t
    ensures IsSubsequence(r, log)
  {
    SelectKeepsOrder(log, ByType(t));
    Select(log, ByType(t))
  }

  /** A query over a concatenation is the concatenation of the queries: order is insertion order. */
  lemma {:induction false} SelectAppend(a: Log, b: Log, q: Query)
    ensures Select(a + b, q) == Select(a, q) + Select(b, q)
    decreases |a|
  {
    if a == [] {
      assert a + b == b;
    } else {
      assert (a + b)[0] == a[0];
      assert (a + b)[1..] == a[1..] + b;
      SelectAppend(a[1..], b, q);
    }
  }

  /** After `add(e)` a query answers what it answered before, followed by `e` if `e` matches. */
  lemma SelectAdd(log: Log, e: Event, q: Query)
    ensures Select(Add(log, e), q) == Select(log, q) + (if Matches(q, e) then [e] else [])
  {
    SelectAppend(log, [e], q);
    assert Select([e], q) == (if Matches(q, e) then [e] else []) by {
      assert [e][1..] == [];
    }
  }

  /** The events of one aggregate, read out of the events of its category, are the same events. */
  lemma {:induction false} ByIdWithinByType(log: Log, id: AggregateId)
    ensures Select(Select(log, ByType(id.kind)), ById(id)) == Select(log, ById(id))
    ensures IsSubsequence(Select(log, ById(id)), Select(log, ByType(id.kind)))
    decreases |log|
  {
    if log != [] {
      assert log == [log[0]] + log[1..];
      ByIdWithinByType(log[1..], id);
      SelectAppend([log[0]], log[1..], ByType(id.kind));
      SelectAppend([log[0]], log[1..], ById(id));
      var cat := Select(log[1..], ByType(id.kind));
      var mine := Select(log[1..], ById(id));
      assert [log[0]][1..] == [];
      if Matches(ById(id), log[0]) {
        SelectAppend([log[0]], cat, ById(id));
        assert ([log[0]] + mine)[1..] == mine;
        assert ([log[0]] + cat)[1..] == cat;
      } else if Matches(ByType(id.kind), log[0]) {
        SelectAppend([log[0]], cat, ById(id));
        assert ([log[0]] + cat)[1..] == cat;
      }
    }
  }

  /** One step of a query: `Select` after `add(e)`, given the answer before. */
  lemma SelectStep(l: Log, e: Event, q: Query, before: Log)
    requires Select(l, q) == before
    ensures Select(Add(l, e), q) == before + (if Matches(q, e) then [e] else [])
  {
    SelectAdd(l, e, q);
  }

  /**
   * The repository scenario with three distinct users: of the seven events, exactly the four
   * about "ala" are found, in insertion order.
   */
  lemma FindsEventsByUserId(ala: UserId, ola: UserId, ula: UserId, m1: string, m2: string)
    requires ala != ola && ala != ula
    ensures var log := Add(Add(Add(Add(Add(Add(Add([], UserCreated(ala)), UserCreated(ola)), FollowerAdded(ala, ola)),
                         UserCreated(ula)), FollowerAdded(ala, ula)), PostSent(ula, m1)), PostSent(ala, m2));
            FindByAggregateId(log, UserAggregate(ala))
            == [UserCreated(ala), FollowerAdded(ala, ola), FollowerAdded(ala, ula), PostSent(ala, m2)]
  {
    var l4 := Add(Add(Add(Add([], UserCreated(ala)), UserCreated(ola)), FollowerAdded(ala, ola)), UserCreated(ula));
    ScenarioFirstHalf(ala, ola, ula);
    ScenarioSecondHalf(l4, [UserCreated(ala), FollowerAdded(ala, ola)], ala, ula, m1, m2);
  }

  lemma ScenarioFirstHalf(ala: UserId, ola: UserId, ula: UserId)
    requires ala != ola && ala != ula
    ensures var l := Add(Add(Add(Add([], UserCreated(ala)), UserCreated(ola)), FollowerAdded(ala, ola)), UserCreated(ula));
            Select(l, ById(UserAggregate(ala))) == [UserCreated(ala), FollowerAdded(ala, ola)]
  {
    var q := ById(UserAggregate(ala));
    var l1 := Add([], UserCreated(ala));
    var l2 := Add(l1, UserCreated(ola));
    var l3 := Add(l2, FollowerAdded(ala, ola));
    SelectStep([], UserCreated(ala), q, []);
    SelectStep(l1, UserCreated(ola), q, [UserCreated(ala)]);
    SelectStep(l2, FollowerAdded(ala, ola), q, [UserCreated(ala)]);
    SelectStep(l3, UserCreated(ula), q, [UserCreated(ala), FollowerAdded(ala, ola)]);
  }

  lemma ScenarioSecondHalf(l: Log, found: Log, ala: UserId, ula: UserId, m1: string, m2: string)
    requires ala != ula
    requires Select(l, ById(UserAggregate(ala))) == found
    ensures Select(Add(Add(Add(l, FollowerAdded(ala, ula)), PostSent(ula, m1)), PostSent(ala, m2)), ById(UserAggregate(ala)))
         == found + [FollowerAdded(ala, ula), PostSent(ala, m2)]
  {
    var q := ById(UserAggregate(ala));
    var l5 := Add(l, FollowerAdded(ala, ula));
    var l6 := Add(l5, PostSent(ula, m1));
    var once := found + [FollowerAdded(ala, ula)];
    assert Matches(q, FollowerAdded(ala, ula)) && !Matches(q, PostSent(ula, m1)) && Matches(q, PostSent(ala, m2));
    SnocSnoc(found, FollowerAdded(ala, ula), PostSent(ala, m2));
    assert once + [] == once;
    SelectStep(l, FollowerAdded(ala, ula), q, found);
    SelectStep(l5, PostSent(ula, m1), q, once);
    SelectStep(l6, PostSent(ala, m2), q, once);
  }

  /** `clear`: afterwards no query finds anything. */
  function Clear(log: Log): (r: Log)
    ensures forall id :: FindByAggregateId(r, id) == []
    ensures forall t :: FindByAggregateType(r, t) == []
  {
    []
  }

  // ---------------------------------------------------------------------------
  // The event bus

  /** The one kind of listener the application registers: it adds the event to the repository. */
  datatype Listener = RepositoryListener

  /** The repository listener's `onEvent`: the event lands at the end of the log. */
  function OnEvent(l: Listener, log: Log, e: Event): (r: Log)
    ensures |r| == |log| + 1 && r[..|log|] == log && r[|log|] == e
  {
    match l
    case RepositoryListener => Add(log, e)
  }

  /** `publish`: every listener receives the event once, in the order of the collection. */
  function Publish(listeners: seq<Listener>, log: Log, e: Event): (r: Log)
    ensures |r| == |log| + |listeners|
    ensures r[..|log|] == log
    ensures forall i :: |log| <= i < |r| ==> r[i] == e
    decreases |listeners|
  {
    if listeners == [] then log
    else Publish(listeners[1..], OnEvent(listeners[0], log, e), e)
  }

  /** The listeners of the running application. */
  const Wired: seq<Listener> := [RepositoryListener]

  /** Publishing on the application's bus is exactly one `add`. */
  function Emit(log: Log, e: Event): (r: Log)
    ensures r == Add(log, e)
  {
    var r := Publish(Wired, log, e);
    assert r == r[..|log|] + [r[|log|]];
    r
  }
}
