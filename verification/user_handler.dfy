/**
 * The user read-model served by the web layer: a per-user counter fold over the user's events,
 * the sorted user directory, and the length check in front of `post`.
 */
module UserHandler {
  import opened Lists
  import opened Results
  import opened Events
  import opened Projection
  import Model
  import TwitService

  /** `UserOutput` without its creation timestamp; the counters start at the declared zero defaults. */
  datatype UserOutput = UserOutput(name: string, followedCount: int, followerCount: int, postCount: int)

  /**
   * `updateUserOutput`: the first `UserCreated` seeds the output, every counter event moves one
   * counter by one, and an absent output stays absent.
   */
  function UpdateUserOutput(projection: Option<UserOutput>, e: Event): (r: Option<UserOutput>)
    ensures r.Some? <==> projection.Some? || e.UserCreated?
    ensures projection.Some? ==> r.Some? && r.value.name == projection.value.name
    ensures projection.None? && r.Some? ==> r.value == UserOutput(e.user.name, 0, 0, 0)
    ensures projection.Some? && e.UserCreated? ==> r == projection
    ensures !IsUserEvent(e) || e.PostReceived? ==> r == projection
    ensures projection.Some? ==>
              r.value.followerCount == projection.value.followerCount + FollowerMove(e)
    ensures projection.Some? ==>
              r.value.followedCount == projection.value.followedCount + FollowedMove(e)
    ensures projection.Some? ==> r.value.postCount == projection.value.postCount + (if e.PostSent? then 1 else 0)
  {
    match e
    case UserCreated(id) =>
      if projection.Some? then projection else Some(UserOutput(id.name, 0, 0, 0))
    case FollowerAdded(_, _) =>
      if projection.None? then None
      else Some(projection.value.(followerCount := projection.value.followerCount + 1))
    case FollowerRemoved(_, _) =>
      if projection.None? then None
      else Some(projection.value.(followerCount := projection.value.followerCount - 1))
    case FollowingStarted(_, _) =>
      if projection.None? then None
      else Some(projection.value.(followedCount := projection.value.followedCount + 1))
    case FollowingEnded(_, _) =>
      if projection.None? then None
      else Some(projection.value.(followedCount := projection.value.followedCount - 1))
    case PostSent(_, _) =>
      if projection.None? then None
      else Some(projection.value.(postCount := projection.value.postCount + 1))
    case _ => projection
  }

  /** How an event moves the follower counter. */
  function FollowerMove(e: Event): int {
    if e.FollowerAdded? then 1 else if e.FollowerRemoved? then -1 else 0
  }

  /** How an event moves the followed counter. */
  function FollowedMove(e: Event): int {
    if e.FollowingStarted? then 1 else if e.FollowingEnded? then -1 else 0
  }

  /**
   * `userProjection`: the fold over the user's stream; `None` is the handler's "not found".
   * A user is found exactly when its `UserCreated` is in the log, and then under its own name.
   */
  function UserProjection(log: Log, id: UserId): (r: Option<UserOutput>)
    ensures r.Some? <==> UserCreated(id) in log
    ensures r.Some? ==> r.value.name == id.name
  {
    var s := Model.Stream(log, id);
    FoldFindsCreation(s);
    Model.StreamBelongs(log, id);
    FirstCreationNames(s, id);
    assert UserCreated(id) in log ==> UserCreated(id) in s;
    Reduce(None, s, UpdateUserOutput)
  }

  // ---------------------------------------------------------------------------
  // The projection against the events and the aggregate

  /** Once an output exists the fold keeps one, under the same name. */
  lemma {:induction false} FoldKeepsOutput(o: UserOutput, s: Log)
    ensures Reduce(Some(o), s, UpdateUserOutput).Some?
    ensures Reduce(Some(o), s, UpdateUserOutput).value.name == o.name
    decreases |s|
  {
    if s != [] {
      FoldKeepsOutput(UpdateUserOutput(Some(o), s[0]).value, s[1..]);
    }
  }

  /** Events folded before any `UserCreated` are lost: the fold starts over at the creation. */
  lemma {:induction false} EarlyEventsLost(pre: Log, post: Log)
    requires forall e :: e in pre ==> !e.UserCreated?
    ensures Reduce(None, pre + post, UpdateUserOutput) == Reduce(None, post, UpdateUserOutput)
    decreases |pre|
  {
    if pre == [] {
      assert pre + post == post;
    } else {
      assert (pre + post)[0] == pre[0];
      assert (pre + post)[1..] == pre[1..] + post;
      EarlyEventsLost(pre[1..], post);
    }
  }

  /** A fold from nothing yields an output exactly when the slice holds a `UserCreated`. */
  lemma {:induction false} FoldFindsCreation(s: Log)
    ensures Reduce(None, s, UpdateUserOutput).Some? <==> exists e :: e in s && e.UserCreated?
    decreases |s|
  {
    if s != [] {
      if s[0].UserCreated? {
        FoldKeepsOutput(UpdateUserOutput(None, s[0]).value, s[1..]);
      } else {
        FoldFindsCreation(s[1..]);
        assert forall e :: e in s <==> e == s[0] || e in s[1..];
      }
    }
  }

  /** On a slice of one user's events the output, when there is one, carries that user's name. */
  lemma {:induction false} FirstCreationNames(s: Log, id: UserId)
    requires forall e :: e in s ==> IsUserEvent(e) && e.user == id
    ensures Reduce(None, s, UpdateUserOutput).Some? ==> Reduce(None, s, UpdateUserOutput).value.name == id.name
    decreases |s|
  {
    if s != [] {
      assert s[0] in s;
      if s[0].UserCreated? {
        FoldKeepsOutput(UpdateUserOutput(None, s[0]).value, s[1..]);
      } else {
        FirstCreationNames(s[1..], id);
      }
    }
  }

  /**
   * On a guarded stream the counters are the lengths of the aggregate's lists: followed, followers
   * and wall. Absent exactly when the stream is empty.
   */
  lemma {:induction false} CountsFollowAggregate(s: Log, id: UserId)
    requires Model.Guarded(s)
    requires forall e :: e in s ==> IsUserEvent(e) && e.user == id
    ensures var u := Model.Replay(s);
            Reduce(None, s, UpdateUserOutput)
            == if s == [] then None else Some(UserOutput(id.name, |u.followed|, |u.followers|, |u.wall|))
    decreases |s|
  {
    if s != [] {
      var p := s[..|s| - 1];
      var e := s[|s| - 1];
      assert s == p + [e];
      assert e in s;
      assert forall f :: f in p ==> f in s;
      CountsFollowAggregate(p, id);
      ReduceSnoc(None, p, e, UpdateUserOutput);
      ReduceSnoc(Model.Blank, p, e, Model.On);
      if p != [] {
        Model.GuardedFacts(p);
      }
      CountStep(Reduce(None, p, UpdateUserOutput), Model.Replay(p), e, id);
    }
  }

  /** One allowed event moves the counters exactly as it moves the aggregate's lists. */
  lemma CountStep(o: Option<UserOutput>, u: Model.User, e: Event, id: UserId)
    requires Model.Allowed(u, e) && IsUserEvent(e) && e.user == id
    requires u.id.None? ==> u == Model.Blank && o == None
    requires u.id.Some? ==> o == Some(UserOutput(id.name, |u.followed|, |u.followers|, |u.wall|))
    ensures var v := Model.On(u, e);
            UpdateUserOutput(o, e) == Some(UserOutput(id.name, |v.followed|, |v.followers|, |v.wall|))
  {
    match e
    case FollowingEnded(_, x) => RemoveFirstLength(u.followed, x);
    case FollowerRemoved(_, x) => RemoveFirstLength(u.followers, x);
    case _ =>
  }

  /** A user whose stream was empty reports 0/0/0 right after being loaded. */
  lemma FreshUserReportsZero(log: Log, id: UserId)
    requires Model.Stream(log, id) == []
    ensures UserProjection(Model.LoadUser(log, id).log, id) == Some(UserOutput(id.name, 0, 0, 0))
  {
    ReduceSnoc(None, [], UserCreated(id), UpdateUserOutput);
    assert [] + [UserCreated(id)] == [UserCreated(id)];
  }

  /** On a valid store every user's counters are the lengths of its aggregate's lists. */
  lemma CountsMatchAggregate(st: TwitService.Store, id: UserId)
    requires TwitService.Valid(st)
    ensures var s := Model.Stream(st.log, id);
            var u := Model.Replay(s);
            UserProjection(st.log, id)
            == if s == [] then None else Some(UserOutput(id.name, |u.followed|, |u.followers|, |u.wall|))
  {
    Model.StreamBelongs(st.log, id);
    CountsFollowAggregate(Model.Stream(st.log, id), id);
  }

  // ---------------------------------------------------------------------------
  // The user directory

  /**
   * `String.compareTo` as a strict order: character by character, a proper prefix first. It holds
   * exactly when the two names first differ at a position where `a` is shorter or has the smaller
   * character.
   */
  predicate Less(a: string, b: string)
    ensures Less(a, b) <==> exists k :: DiffersBelow(a, b, k)
    decreases |a|
  {
    if a == [] then
      assert b != [] ==> DiffersBelow(a, b, 0);
      b != []
    else if b == [] then false
    else
      DiffersShift(a, b);
      a[0] < b[0] || (a[0] == b[0] && Less(a[1..], b[1..]))
  }

  /** `a` and `b` agree on their first `k` characters, and there `a` ends first or is smaller. */
  ghost predicate DiffersBelow(a: string, b: string, k: nat) {
    k <= |a| && k < |b| && a[..k] == b[..k] && (k == |a| || a[k] < b[k])
  }

  /** On non-empty names a first difference is at the front or one place further in the tails. */
  lemma DiffersShift(a: string, b: string)
    requires a != [] && b != []
    ensures (exists k :: DiffersBelow(a, b, k))
        <==> a[0] < b[0] || (a[0] == b[0] && exists k :: DiffersBelow(a[1..], b[1..], k))
  {
    if exists k :: DiffersBelow(a, b, k) {
      var k: nat :| DiffersBelow(a, b, k);
      if k > 0 {
        assert a[0] == a[..k][0] == b[..k][0] == b[0];
        assert a[1..][..k - 1] == a[..k][1..];
        assert b[1..][..k - 1] == b[..k][1..];
        assert DiffersBelow(a[1..], b[1..], k - 1);
      }
    }
    if a[0] < b[0] {
      assert DiffersBelow(a, b, 0);
    } else if a[0] == b[0] && exists k :: DiffersBelow(a[1..], b[1..], k) {
      var k: nat :| DiffersBelow(a[1..], b[1..], k);
      assert a[..k + 1] == [a[0]] + a[1..][..k];
      assert b[..k + 1] == [b[0]] + b[1..][..k];
      assert DiffersBelow(a, b, k + 1);
    }
  }

  lemma {:induction false} LessIrreflexive(a: string)
    ensures !Less(a, a)
    decreases |a|
  {
    if a != [] {
      LessIrreflexive(a[1..]);
    }
  }

  lemma {:induction false} LessTransitive(a: string, b: string, c: string)
    requires Less(a, b) && Less(b, c)
    ensures Less(a, c)
    decreases |a|
  {
    if a != [] && b != [] && c != [] && a[0] == b[0] && b[0] == c[0] {
      LessTransitive(a[1..], b[1..], c[1..]);
    }
  }

  lemma {:induction false} LessTotal(a: string, b: string)
    requires a != b
    ensures Less(a, b) || Less(b, a)
    decreases |a|
  {
    if a != [] && b != [] && a[0] == b[0] {
      assert a == [a[0]] + a[1..] && b == [b[0]] + b[1..];
      LessTotal(a[1..], b[1..]);
    }
  }

  /** Strictly ascending by name, hence also free of duplicate names. */
  ghost predicate SortedByName(s: seq<UserOutput>) {
    forall i, j :: 0 <= i < j < |s| ==> Less(s[i].name, s[j].name)
  }

  ghost predicate DistinctNames(s: seq<UserOutput>) {
    forall i, j :: 0 <= i < j < |s| ==> s[i].name != s[j].name
  }

  /** Insertion into a sorted list: in front of the first larger name. */
  function Insert(o: UserOutput, s: seq<UserOutput>): (r: seq<UserOutput>)
    ensures multiset(r) == multiset(s) + multiset{o}
    decreases |s|
  {
    if s == [] then [o]
    else if Less(o.name, s[0].name) then
      assert [o] + s == [o] + ([s[0]] + s[1..]);
      [o] + s
    else
      assert s == [s[0]] + s[1..];
      [s[0]] + Insert(o, s[1..])
  }

  lemma {:induction false} InsertSorted(o: UserOutput, s: seq<UserOutput>)
    requires SortedByName(s)
    requires forall y :: y in s ==> y.name != o.name
    ensures SortedByName(Insert(o, s))
    decreases |s|
  {
    if s != [] {
      if Less(o.name, s[0].name) {
        forall y | y in s
          ensures Less(o.name, y.name)
        {
          var k :| 0 <= k < |s| && s[k] == y;
          if k > 0 {
            LessTransitive(o.name, s[0].name, y.name);
          }
        }
        SortedCons(o, s);
      } else {
        assert s[0] in s;
        LessTotal(o.name, s[0].name);
        var t := Insert(o, s[1..]);
        InsertSorted(o, s[1..]);
        forall y | y in t
          ensures Less(s[0].name, y.name)
        {
          assert y in multiset(t);
          if y != o {
            assert y in multiset(s[1..]);
            var k :| 1 <= k < |s| && s[k] == y;
          }
        }
        SortedCons(s[0], t);
      }
    }
  }

  /** A name below every name of a sorted list can go in front of it. */
  lemma SortedCons(o: UserOutput, s: seq<UserOutput>)
    requires SortedByName(s)
    requires forall y :: y in s ==> Less(o.name, y.name)
    ensures SortedByName([o] + s)
  {
    var r := [o] + s;
    forall i, j | 0 <= i < j < |r|
      ensures Less(r[i].name, r[j].name)
    {
      if i == 0 {
        assert r[j] in s;
      } else {
        assert r[i] == s[i - 1] && r[j] == s[j - 1];
      }
    }
  }

  /** `sort` by name: an insertion sort, a permutation of its input. */
  function SortByName(s: seq<UserOutput>): (r: seq<UserOutput>)
    ensures multiset(r) == multiset(s)
    decreases |s|
  {
    if s == [] then []
    else
      assert s == [s[0]] + s[1..];
      Insert(s[0], SortByName(s[1..]))
  }

  /** With distinct names the sort is strictly ascending. */
  lemma {:induction false} SortSorts(s: seq<UserOutput>)
    requires DistinctNames(s)
    ensures SortedByName(SortByName(s))
    decreases |s|
  {
    if s != [] {
      assert DistinctNames(s[1..]);
      SortSorts(s[1..]);
      forall y | y in SortByName(s[1..])
        ensures y.name != s[0].name
      {
        assert y in multiset(SortByName(s[1..]));
        var k :| 1 <= k < |s| && s[k] == y;
      }
      InsertSorted(s[0], SortByName(s[1..]));
    }
  }

  /** `groupBy { aggregateId.id }`: the distinct users of the slice, in order of first appearance. */
  function UserKeys(s: Log): (r: seq<UserId>)
    ensures NoDup(r)
    ensures forall e :: e in s && IsUserEvent(e) ==> e.user in r
    ensures forall k :: k in r ==> exists e :: e in s && IsUserEvent(e) && e.user == k
    decreases |s|
  {
    if s == [] then []
    else
      var init := s[..|s| - 1];
      var last := s[|s| - 1];
      var keys := UserKeys(init);
      assert s == init + [last];
      if !IsUserEvent(last) || last.user in keys then keys
      else
        NoDupSnoc(keys, last.user);
        keys + [last.user]
  }

  /** The group of user `k` inside the USER category. */
  function Group(log: Log, k: UserId): Log {
    Select(FindByAggregateType(log, USER), ById(UserAggregate(k)))
  }

  /** One group's fold: it agrees with `userProjection` for that user, and carries the user's name. */
  function GroupOutput(log: Log, k: UserId): (r: Option<UserOutput>)
    ensures r == UserProjection(log, k)
    ensures r.Some? ==> r.value.name == k.name
  {
    ByIdWithinByType(log, UserAggregate(k));
    Reduce(None, Group(log, k), UpdateUserOutput)
  }

  /** Each group's fold, dropping the groups that yield nothing, in key order. */
  function Outputs(log: Log, keys: seq<UserId>): (r: seq<UserOutput>)
    ensures forall o :: o in r ==> UserId(o.name) in keys && UserProjection(log, UserId(o.name)) == Some(o)
    ensures forall k :: k in keys && UserProjection(log, k).Some? ==> UserProjection(log, k).value in r
    decreases |keys|
  {
    if keys == [] then []
    else
      var head := GroupOutput(log, keys[0]);
      (if head.Some? then [head.value] else []) + Outputs(log, keys[1..])
  }

  /** Every user's output in order of first appearance, before sorting. */
  function UserOutputs(log: Log): seq<UserOutput> {
    Outputs(log, UserKeys(FindByAggregateType(log, USER)))
  }

  /**
   * `users`: every user's output, sorted by name. The directory is strictly ascending by name,
   * holds only what `user` would answer, and holds every user that `user` finds.
   */
  function Users(log: Log): (r: seq<UserOutput>)
    ensures SortedByName(r)
    ensures forall o :: o in r ==> UserProjection(log, UserId(o.name)) == Some(o)
    ensures forall k :: UserProjection(log, k).Some? ==> UserProjection(log, k).value in r
  {
    DirectorySorted(log);
    DirectorySound(log);
    DirectoryComplete(log);
    SortByName(UserOutputs(log))
  }

  /** The outputs of distinct keys have distinct names. */
  lemma {:induction false} OutputsDistinct(log: Log, keys: seq<UserId>)
    requires NoDup(keys)
    ensures DistinctNames(Outputs(log, keys))
    decreases |keys|
  {
    if keys != [] {
      assert NoDup(keys[1..]);
      assert keys[0] !in keys[1..];
      OutputsDistinct(log, keys[1..]);
      var rest := Outputs(log, keys[1..]);
      var head := GroupOutput(log, keys[0]);
      if head.Some? {
        forall y | y in rest
          ensures y.name != head.value.name
        {
          assert UserId(y.name) in keys[1..];
        }
        DistinctCons(head.value, rest);
      }
    }
  }

  lemma DistinctCons(o: UserOutput, s: seq<UserOutput>)
    requires DistinctNames(s)
    requires forall y :: y in s ==> y.name != o.name
    ensures DistinctNames([o] + s)
  {
    var r := [o] + s;
    forall i, j | 0 <= i < j < |r|
      ensures r[i].name != r[j].name
    {
      if i == 0 {
        assert r[j] in s;
      } else {
        assert r[i] == s[i - 1] && r[j] == s[j - 1];
      }
    }
  }

  lemma DirectorySorted(log: Log)
    ensures SortedByName(SortByName(UserOutputs(log)))
  {
    var keys := UserKeys(FindByAggregateType(log, USER));
    OutputsDistinct(log, keys);
    SortSorts(Outputs(log, keys));
  }

  lemma DirectorySound(log: Log)
    ensures forall o :: o in SortByName(UserOutputs(log)) ==> UserProjection(log, UserId(o.name)) == Some(o)
  {
    forall o | o in SortByName(UserOutputs(log))
      ensures UserProjection(log, UserId(o.name)) == Some(o)
    {
      assert o in multiset(SortByName(UserOutputs(log)));
    }
  }

  lemma DirectoryComplete(log: Log)
    ensures forall k :: UserProjection(log, k).Some? ==> UserProjection(log, k).value in SortByName(UserOutputs(log))
  {
    var cat := FindByAggregateType(log, USER);
    var outs := UserOutputs(log);
    forall k | UserProjection(log, k).Some?
      ensures UserProjection(log, k).value in SortByName(outs)
    {
      assert UserCreated(k) in cat;
      assert UserProjection(log, k).value in multiset(outs);
    }
  }


  // ---------------------------------------------------------------------------
  // Posting through the web layer

  /** The longest text a post may carry. */
  const MaxTextLength: nat := 140

  /** Why posting through the web layer produced no id. */
  datatype Rejection = TextTooLong | Failed(fault: Model.Fault)

  /**
   * `createPost`: text longer than the limit is filtered out before the service is called (the
   * handler answers "Text too long"); otherwise the service posts as user `name`.
   */
  function CreatePost(st: TwitService.Store, name: string, text: string): (r: (TwitService.Store, Result<PostId, Rejection>))
    ensures r.1 == Err(TextTooLong) <==> |text| > MaxTextLength
    ensures r.1 == Err(TextTooLong) ==> r.0 == st
    ensures r.1.Ok? ==> r.1.value == PostId(st.counter + 1) && r.0.counter == st.counter + 1
  {
    if |text| > MaxTextLength then (st, Err(TextTooLong))
    else
      match TwitService.SubmitPost(st, UserId(name), text)
      case Ok((st', id)) => (st', Ok(id))
      case Err(f) => (st, Err(Failed(f)))
  }

  /** On a valid store every text within the limit is posted and the store stays valid. */
  lemma CreatePostAccepts(st: TwitService.Store, name: string, text: string)
    requires TwitService.Valid(st)
    requires |text| <= MaxTextLength
    ensures CreatePost(st, name, text).1 == Ok(PostId(st.counter + 1))
    ensures TwitService.Valid(CreatePost(st, name, text).0)
    ensures CreatePost(st, name, text).0 == TwitService.SubmitPost(st, UserId(name), text).value.0
  {
    TwitService.PostKeepsValid(st, UserId(name), text);
  }
}
