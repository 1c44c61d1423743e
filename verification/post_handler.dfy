/**
 * The global post feed: the POST category of the log, grouped by post id, each group reduced to
 * the output of its first `PostCreated`.
 */
module PostHandler {
  import opened Lists
  import opened Results
  import opened Events
  import opened Projection
  import Model
  import TwitService

  /** `PostOutput` without its timestamp. */
  datatype PostOutput = PostOutput(author: string, text: string)

  /** `updatePost`: the first `PostCreated` of a group fills the output; nothing replaces it. */
  function UpdatePost(post: Option<PostOutput>, e: Event): (r: Option<PostOutput>)
    ensures post.Some? ==> r == post
    ensures r.Some? <==> post.Some? || e.PostCreated?
    ensures post.None? && e.PostCreated? ==> r == Some(PostOutput(e.author.name, e.text))
  {
    match e
    case PostCreated(_, author, text) =>
      if post.Some? then post else Some(PostOutput(author.name, text))
    case _ => post
  }

  /** `groupBy { aggregateId.id }` on post events: the distinct post ids, in order of first appearance. */
  function PostKeys(s: Log): (r: seq<PostId>)
    ensures NoDup(r)
    ensures forall e :: e in s && !IsUserEvent(e) ==> e.post in r
    ensures forall k :: k in r ==> exists e :: e in s && !IsUserEvent(e) && e.post == k
    decreases |s|
  {
    if s == [] then []
    else
      var init := s[..|s| - 1];
      var last := s[|s| - 1];
      var keys := PostKeys(init);
      assert s == init + [last];
      if IsUserEvent(last) || last.post in keys then keys
      else
        NoDupSnoc(keys, last.post);
        keys + [last.post]
  }

  /** The group of post `k` inside a slice. */
  function PostGroup(cat: Log, k: PostId): Log {
    Select(cat, ById(PostAggregate(k)))
  }

  /** The groups' outputs in key order, dropping the groups that yield nothing. */
  function Collect(cat: Log, keys: seq<PostId>): (r: seq<PostOutput>)
    ensures |r| <= |keys|
    decreases |keys|
  {
    if keys == [] then [] else GroupEntry(cat, keys[0]) + Collect(cat, keys[1..])
  }

  /** What one group contributes: its output if the fold yields one, nothing otherwise. */
  function GroupEntry(cat: Log, k: PostId): (r: seq<PostOutput>)
    ensures |r| <= 1
  {
    var head := Reduce(None, PostGroup(cat, k), UpdatePost);
    if head.Some? then [head.value] else []
  }

  /** `posts`: the feed read from the POST category only; each entry is some `PostCreated` of the log. */
  function Posts(log: Log): (r: seq<PostOutput>)
    ensures forall o :: o in r ==> exists e :: e in log && e.PostCreated? && o == PostOutput(e.author.name, e.text)
  {
    var cat := FindByAggregateType(log, POST);
    CollectSound(cat, PostKeys(cat));
    Collect(cat, PostKeys(cat))
  }

  /** The entry of a group is the author name and text of a `PostCreated` of the slice. */
  lemma EntrySound(cat: Log, k: PostId)
    ensures forall o :: o in GroupEntry(cat, k) ==>
              exists e :: e in cat && e.PostCreated? && o == PostOutput(e.author.name, e.text)
  {
    var g := PostGroup(cat, k);
    if exists i :: 0 <= i < |g| && g[i].PostCreated? {
      var i :| 0 <= i < |g| && g[i].PostCreated?;
      FirstIndexExists(g, i);
      var first :| 0 <= first <= i && g[first].PostCreated? && forall j :: 0 <= j < first ==> !g[j].PostCreated?;
      FoldIsFirstCreated(g, first);
      assert g[first] in g;
    } else {
      FoldWithoutCreated(g);
    }
  }

  lemma {:induction false} CollectSound(cat: Log, keys: seq<PostId>)
    ensures forall o :: o in Collect(cat, keys) ==>
              exists e :: e in cat && e.PostCreated? && o == PostOutput(e.author.name, e.text)
    decreases |keys|
  {
    if keys != [] {
      EntrySound(cat, keys[0]);
      CollectSound(cat, keys[1..]);
    }
  }

  // ---------------------------------------------------------------------------
  // The group fold against its reference: the first `PostCreated`

  lemma {:induction false} FoldKeepsPost(o: PostOutput, s: Log)
    ensures Reduce(Some(o), s, UpdatePost) == Some(o)
    decreases |s|
  {
    if s != [] {
      FoldKeepsPost(o, s[1..]);
    }
  }

  /**
   * A group yields an output exactly when it holds a `PostCreated`, and then the output of the
   * first one: author name and text.
   */
  lemma {:induction false} FoldIsFirstCreated(s: Log, i: nat)
    requires i < |s| && s[i].PostCreated?
    requires forall j :: 0 <= j < i ==> !s[j].PostCreated?
    ensures Reduce(None, s, UpdatePost) == Some(PostOutput(s[i].author.name, s[i].text))
    decreases i
  {
    if i == 0 {
      FoldKeepsPost(PostOutput(s[0].author.name, s[0].text), s[1..]);
    } else {
      FoldIsFirstCreated(s[1..], i - 1);
    }
  }

  lemma {:induction false} FoldWithoutCreated(s: Log)
    requires forall j :: 0 <= j < |s| ==> !s[j].PostCreated?
    ensures Reduce(None, s, UpdatePost) == None
    decreases |s|
  {
    if s != [] {
      FoldWithoutCreated(s[1..]);
    }
  }

  // ---------------------------------------------------------------------------
  // How the feed changes as the log grows

  lemma {:induction false} CollectAppend(cat: Log, k1: seq<PostId>, k2: seq<PostId>)
    ensures Collect(cat, k1 + k2) == Collect(cat, k1) + Collect(cat, k2)
    decreases |k1|
  {
    if k1 == [] {
      assert k1 + k2 == k2;
    } else {
      assert (k1 + k2)[1..] == k1[1..] + k2;
      CollectAppend(cat, k1[1..], k2);
      var g := GroupEntry(cat, k1[0]);
      assert Collect(cat, k1 + k2) == g + (Collect(cat, k1[1..]) + Collect(cat, k2));
      assert g + (Collect(cat, k1[1..]) + Collect(cat, k2)) == (g + Collect(cat, k1[1..])) + Collect(cat, k2);
    }
  }

  /** Keys whose groups did not change give the same outputs. */
  lemma {:induction false} CollectSame(cat: Log, cat': Log, keys: seq<PostId>)
    requires forall k :: k in keys ==> PostGroup(cat', k) == PostGroup(cat, k)
    ensures Collect(cat', keys) == Collect(cat, keys)
    decreases |keys|
  {
    if keys != [] {
      assert keys[0] in keys;
      CollectSame(cat, cat', keys[1..]);
    }
  }

  /** One more event at the end of the category: only its own group gains it. */
  lemma CategoryAdd(cat: Log, e: Event)
    requires !IsUserEvent(e)
    ensures PostKeys(Add(cat, e)) == PostKeys(cat) + (if e.post in PostKeys(cat) then [] else [e.post])
    ensures forall k :: k != e.post ==> PostGroup(Add(cat, e), k) == PostGroup(cat, k)
    ensures PostGroup(Add(cat, e), e.post) == PostGroup(cat, e.post) + [e]
  {
    assert Add(cat, e)[..|cat|] == cat;
    forall k
      ensures PostGroup(Add(cat, e), k) == PostGroup(cat, k) + (if k == e.post then [e] else [])
    {
      SelectAdd(cat, e, ById(PostAggregate(k)));
    }
    assert PostGroup(cat, e.post) + [] == PostGroup(cat, e.post);
  }

  /** User events never reach the feed. */
  lemma PostsIgnoreUserEvents(log: Log, e: Event)
    requires IsUserEvent(e)
    ensures Posts(Add(log, e)) == Posts(log)
  {
    TwitService.UserEventKeepsPosts(log, e);
  }

  /** An id the log has never seen has an empty group and is no key of the POST category. */
  lemma FreshKey(log: Log, id: PostId)
    requires FindByAggregateId(log, PostAggregate(id)) == []
    ensures PostGroup(FindByAggregateType(log, POST), id) == []
    ensures id !in PostKeys(FindByAggregateType(log, POST))
  {
    var cat := FindByAggregateType(log, POST);
    ByIdWithinByType(log, PostAggregate(id));
    assert forall c :: c in cat && !IsUserEvent(c) ==> c.post != id;
  }

  /** A `PostCreated` for an id the log has never seen adds its output at the end of the feed. */
  lemma FreshPostAppends(log: Log, id: PostId, author: UserId, text: string)
    requires FindByAggregateId(log, PostAggregate(id)) == []
    ensures Posts(Add(log, PostCreated(id, author, text))) == Posts(log) + [PostOutput(author.name, text)]
  {
    var e := PostCreated(id, author, text);
    FreshCategory(log, e);
    NewGroupAppends(FindByAggregateType(log, POST), FindByAggregateType(Add(log, e), POST), e);
  }

  /** A new last group holding only a `PostCreated`, all other groups kept: its output is appended. */
  lemma NewGroupAppends(cat: Log, cat': Log, e: Event)
    requires e.PostCreated?
    requires PostKeys(cat') == PostKeys(cat) + [e.post]
    requires PostGroup(cat', e.post) == [e]
    requires forall k :: k in PostKeys(cat) ==> PostGroup(cat', k) == PostGroup(cat, k)
    ensures Collect(cat', PostKeys(cat')) == Collect(cat, PostKeys(cat)) + [PostOutput(e.author.name, e.text)]
  {
    var keys := PostKeys(cat);
    CollectAppend(cat', keys, [e.post]);
    CollectSame(cat, cat', keys);
    SingleGroup(cat', e);
  }

  /** A key whose group is a lone `PostCreated` contributes exactly that post's output. */
  lemma SingleGroup(cat: Log, e: Event)
    requires e.PostCreated? && PostGroup(cat, e.post) == [e]
    ensures Collect(cat, [e.post]) == [PostOutput(e.author.name, e.text)]
  {
    FoldIsFirstCreated([e], 0);
    assert Collect(cat, [e.post]) == GroupEntry(cat, e.post) + [];
  }

  /** The POST category after a post event with an unseen id: one new key, one new one-event group. */
  lemma FreshCategory(log: Log, e: Event)
    requires !IsUserEvent(e)
    requires FindByAggregateId(log, PostAggregate(e.post)) == []
    ensures var cat := FindByAggregateType(log, POST);
            var cat' := FindByAggregateType(Add(log, e), POST);
            && PostKeys(cat') == PostKeys(cat) + [e.post]
            && PostGroup(cat', e.post) == [e]
            && forall k :: k in PostKeys(cat) ==> PostGroup(cat', k) == PostGroup(cat, k)
  {
    var cat := FindByAggregateType(log, POST);
    SelectAdd(log, e, ByType(POST));
    assert FindByAggregateType(Add(log, e), POST) == Add(cat, e);
    FreshKey(log, e.post);
    CategoryAdd(cat, e);
  }

  /** Any later event of a post that already has its `PostCreated` leaves the feed as it was. */
  lemma LaterEventIgnored(log: Log, e: Event, c: Event)
    requires !IsUserEvent(e)
    requires c in log && c.PostCreated? && c.post == e.post
    ensures Posts(Add(log, e)) == Posts(log)
  {
    var cat := FindByAggregateType(log, POST);
    SelectAdd(log, e, ByType(POST));
    assert c in cat;
    SeenCategory(cat, e, c);
  }

  /** Within the POST category: an event for a post whose group already has a `PostCreated` changes no output. */
  lemma SeenCategory(cat: Log, e: Event, c: Event)
    requires !IsUserEvent(e)
    requires c in cat && c.PostCreated? && c.post == e.post
    ensures Collect(Add(cat, e), PostKeys(Add(cat, e))) == Collect(cat, PostKeys(cat))
  {
    var keys := PostKeys(cat);
    CategoryAdd(cat, e);
    forall k | k in keys
      ensures Reduce(None, PostGroup(Add(cat, e), k), UpdatePost) == Reduce(None, PostGroup(cat, k), UpdatePost)
    {
      if k == e.post {
        assert c in PostGroup(cat, k);
        CreatedGroupKeeps(PostGroup(cat, k), c, e);
      }
    }
    CollectStable(cat, Add(cat, e), keys);
  }

  /** A group that already holds a `PostCreated` folds to the same output whatever follows it. */
  lemma CreatedGroupKeeps(g: Log, c: Event, e: Event)
    requires c in g && c.PostCreated?
    ensures Reduce(None, g + [e], UpdatePost) == Reduce(None, g, UpdatePost)
  {
    var i :| 0 <= i < |g| && g[i] == c;
    FirstIndexExists(g, i);
    var first :| 0 <= first <= i && g[first].PostCreated? && forall j :: 0 <= j < first ==> !g[j].PostCreated?;
    FoldIsFirstCreated(g, first);
    ReduceSnoc(None, g, e, UpdatePost);
  }

  /** The first `PostCreated` at or before a given one exists. */
  lemma {:induction false} FirstIndexExists(g: Log, i: nat)
    requires i < |g| && g[i].PostCreated?
    ensures exists first :: 0 <= first <= i && g[first].PostCreated? && forall j :: 0 <= j < first ==> !g[j].PostCreated?
    decreases i
  {
    if exists j :: 0 <= j < i && g[j].PostCreated? {
      var j :| 0 <= j < i && g[j].PostCreated?;
      FirstIndexExists(g, j);
    } else {
      assert forall j :: 0 <= j < i ==> !g[j].PostCreated?;
    }
  }

  /** Keys whose groups fold to the same output give the same outputs. */
  lemma {:induction false} CollectStable(cat: Log, cat': Log, keys: seq<PostId>)
    requires forall k :: k in keys ==> Reduce(None, PostGroup(cat', k), UpdatePost) == Reduce(None, PostGroup(cat, k), UpdatePost)
    ensures Collect(cat', keys) == Collect(cat, keys)
    decreases |keys|
  {
    if keys != [] {
      assert keys[0] in keys;
      CollectStable(cat, cat', keys[1..]);
    }
  }

  // ---------------------------------------------------------------------------
  // The feed under the service's commands

  /** On a valid store each `post` adds exactly one feed entry, at the end, whoever follows whom. */
  lemma ServicePostAddsEntry(st: TwitService.Store, b: UserId, text: string)
    requires TwitService.Valid(st)
    ensures TwitService.SubmitPost(st, b, text).Ok?
    ensures Posts(TwitService.SubmitPost(st, b, text).value.0.log) == Posts(st.log) + [PostOutput(b.name, text)]
  {
    TwitService.PostAddsOnePost(st, b, text);
    var id := PostId(st.counter + 1);
    var e := PostCreated(id, b, text);
    var created := Model.CreatePost(st.log, st.counter, b, text);
    FreshPostAppends(st.log, id, b, text);
    SelectAdd(st.log, e, ByType(POST));
  }

  /** The requests that change the log: posting, following and unfollowing. */
  datatype Request =
    | PostRequest(user: UserId, text: string)
    | FollowRequest(follower: UserId, followed: UserId)
    | UnfollowRequest(follower: UserId, followed: UserId)

  /** One request, served by the service. */
  function Serve(st: TwitService.Store, r: Request): Result<TwitService.Store, Model.Fault> {
    match r
    case PostRequest(u, t) =>
      (match TwitService.SubmitPost(st, u, t)
       case Ok((st', _)) => Ok(st')
       case Err(f) => Err(f))
    case FollowRequest(a, b) => TwitService.Follow(st, a, b)
    case UnfollowRequest(a, b) => TwitService.Unfollow(st, a, b)
  }

  /** Serve the requests one after the other; the first failure stops the run. */
  function Run(st: TwitService.Store, rs: seq<Request>): Result<TwitService.Store, Model.Fault>
    decreases |rs|
  {
    if rs == [] then Ok(st)
    else
      var next :- Serve(st, rs[0]);
      Run(next, rs[1..])
  }

  /** The feed entry a request should produce: one for a post, none otherwise. */
  function Entry(r: Request): seq<PostOutput> {
    if r.PostRequest? then [PostOutput(r.user.name, r.text)] else []
  }

  /** The feed entries the post requests should produce, in request order. */
  function Entries(rs: seq<Request>): seq<PostOutput>
    decreases |rs|
  {
    if rs == [] then [] else Entry(rs[0]) + Entries(rs[1..])
  }

  /** From a valid store one request succeeds, keeps the store valid and adds its own entry. */
  lemma ServeOne(st: TwitService.Store, r: Request)
    requires TwitService.Valid(st)
    ensures Serve(st, r).Ok?
    ensures TwitService.Valid(Serve(st, r).value)
    ensures Posts(Serve(st, r).value.log) == Posts(st.log) + Entry(r)
  {
    match r
    case PostRequest(u, t) =>
      TwitService.PostKeepsValid(st, u, t);
      ServicePostAddsEntry(st, u, t);
    case FollowRequest(a, b) => ServeFollow(st, a, b);
    case UnfollowRequest(a, b) => ServeUnfollow(st, a, b);
  }

  /** A follow request leaves the feed as it was. */
  lemma ServeFollow(st: TwitService.Store, a: UserId, b: UserId)
    requires TwitService.Valid(st)
    ensures TwitService.Follow(st, a, b).Ok?
    ensures TwitService.Valid(TwitService.Follow(st, a, b).value)
    ensures Posts(TwitService.Follow(st, a, b).value.log) == Posts(st.log) + []
  {
    assert TwitService.Follow(st, a, b).Ok? && TwitService.Valid(TwitService.Follow(st, a, b).value)
        && FindByAggregateType(TwitService.Follow(st, a, b).value.log, POST) == FindByAggregateType(st.log, POST) by {
      TwitService.FollowEffects(st, a, b);
    }
    SameCategorySameFeed(st.log, TwitService.Follow(st, a, b).value.log);
    assert Posts(st.log) + [] == Posts(st.log);
  }

  /** An unfollow request leaves the feed as it was. */
  lemma ServeUnfollow(st: TwitService.Store, a: UserId, b: UserId)
    requires TwitService.Valid(st)
    ensures TwitService.Unfollow(st, a, b).Ok?
    ensures TwitService.Valid(TwitService.Unfollow(st, a, b).value)
    ensures Posts(TwitService.Unfollow(st, a, b).value.log) == Posts(st.log) + []
  {
    assert TwitService.Unfollow(st, a, b).Ok? && TwitService.Valid(TwitService.Unfollow(st, a, b).value)
        && FindByAggregateType(TwitService.Unfollow(st, a, b).value.log, POST) == FindByAggregateType(st.log, POST) by {
      TwitService.UnfollowEffects(st, a, b);
    }
    SameCategorySameFeed(st.log, TwitService.Unfollow(st, a, b).value.log);
    assert Posts(st.log) + [] == Posts(st.log);
  }

  /** The feed depends on the POST category alone. */
  lemma SameCategorySameFeed(log: Log, log': Log)
    requires FindByAggregateType(log', POST) == FindByAggregateType(log, POST)
    ensures Posts(log') == Posts(log)
  {
  }

  /** Regrouping a concatenation, kept apart so the induction step stays small. */
  lemma AppendAssoc(a: seq<PostOutput>, b: seq<PostOutput>, c: seq<PostOutput>)
    ensures (a + b) + c == a + (b + c)
  {
  }

  /**
   * From a valid store, any run of requests succeeds and extends the feed by one entry per post,
   * in the order the posts were made, whatever the follow graph.
   */
  lemma {:induction false} FeedInCreationOrder(st: TwitService.Store, rs: seq<Request>)
    requires TwitService.Valid(st)
    ensures Run(st, rs).Ok?
    ensures TwitService.Valid(Run(st, rs).value)
    ensures Posts(Run(st, rs).value.log) == Posts(st.log) + Entries(rs)
    decreases |rs|
  {
    if rs == [] {
      assert Posts(st.log) + [] == Posts(st.log);
    } else {
      ServeOne(st, rs[0]);
      var next := Serve(st, rs[0]).value;
      FeedInCreationOrder(next, rs[1..]);
      AppendAssoc(Posts(st.log), Entry(rs[0]), Entries(rs[1..]));
    }
  }
}
