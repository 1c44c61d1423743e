# twits — an event-sourced social feed, modelled in Dafny

`twits` records every change of state as an immutable event appended to a single
in-memory log, and derives every view by folding a filtered slice of that log.
This project models the core of the `twits` package:

- the event log (`MemoryEventRepository`) with its two queries, by aggregate id and by
  aggregate category, its test reset, and the event bus whose only wired listener appends
  to the log (module `Events`);
- the generic left fold every read-model uses (module `Projection`);
- the user aggregate: loading by replay with automatic creation, the post-id counter, the
  guarded `follow`/`unfollow`/`addFollower`/`removeFollower` commands, `post`, `receive` and
  `apply` with their `on` handlers (module `Model`);
- the command service: `post` with its fan-out to followers, the two-sided `follow` and
  `unfollow`, and the newest-first `wall` and `timeline` read-models (module `TwitService`);
- the user read-model (counter fold, not-found, sorted directory) and the 140-character
  post filter (module `UserHandler`);
- the global post feed, built from the first `PostCreated` of every post id (module `PostHandler`).

The log is a `seq<Event>`. Each command is a pure function from the log (and the post-id
counter) to a new log and, where the source returns one, a result. Reactor `Mono` is
`Option` and `Flux` is `seq`. The `userId!!` dereference that throws on a user without
`UserCreated` is the error `Err(UserIdUnset)`. `LinkedList.remove(Object)` is `Lists.RemoveFirst`,
which removes only the first occurrence.

Two invariants carry the service-level proofs:
- `Model.AllGuarded` says every user's stream could have been produced by the guarded commands.
- `Model.PostIdsBelow` says no post event carries an id above the counter.

Together they are `TwitService.Valid`, which every service operation preserves.

## Model

| member | source | states |
|---|---|---|
| Events.AggregateOf | src/main/kotlin/twits/events.kt:58-59 | a user event lives in the USER category under its own user id; every other event lives in the POST category under its post id (also lines 77-79) |
| Events.BelongsToUser | src/main/kotlin/twits/events.kt:58-59 | an event belongs to user `u`'s aggregate exactly when it is a user event about `u` |
| Events.Add | src/main/kotlin/twits/events.kt:23-26 | appending makes the log one longer, keeps every earlier event in place and puts the new event last |
| Events.FindByAggregateId | src/main/kotlin/twits/events.kt:28-29 | the query by aggregate id returns exactly the logged events of that aggregate, as an order-preserving subsequence of the log |
| Events.FindByAggregateType | src/main/kotlin/twits/events.kt:30 | the query by category returns exactly the logged events of that category, as an order-preserving subsequence of the log |
| Events.Select | src/main/kotlin/twits/events.kt:28-30 | a query result holds exactly the logged events that match the query and is never longer than the log |
| Events.SelectKeepsOrder | src/main/kotlin/twits/events.kt:28-30 | a query result is an order-preserving subsequence of the log, so events come back in insertion order |
| Events.SelectAppend | src/main/kotlin/twits/events.kt:28-30 | querying a concatenated log is querying each part and concatenating the answers |
| Events.SelectAdd | src/main/kotlin/twits/events.kt:23-30 | after an append, a query gains the new event at the end if it matches and is unchanged otherwise |
| Events.ByIdWithinByType | src/main/kotlin/twits/events.kt:28-30 | the events of one aggregate are exactly the events of that aggregate within its category, and form an ordered subsequence of the category |
| Events.FindsEventsByUserId | src/test/kotlin/twits/EventRepositoryTest.kt:10-24 | in the seven-event log of the repository test, the query for `ala` returns exactly `ala`'s four events in append order |
| Events.Clear | src/main/kotlin/twits/events.kt:32-34 | after a reset both queries return nothing for every argument |
| Events.Publish | src/main/kotlin/twits/events.kt:44-47 | each listener is invoked once, in collection order: with appending listeners the log grows by one copy of the event per listener and nothing earlier changes |
| Events.OnEvent | src/main/kotlin/twits/Configuration.kt:12-14 | the wired listener's `onEvent` puts the event at the end of the log and keeps every earlier event in place |
| Events.Emit | src/main/kotlin/twits/Configuration.kt:12-14 | publishing on the wired bus, whose only listener appends to the repository, is exactly one append |
| Model.On | src/main/kotlin/twits/events.kt:85-88 | a user ignores every event it has no handler for, and only a creation event changes its id |
| Model.StreamAdd | src/main/kotlin/twits/model.kt:16-19 | a user's stream grows by an appended event exactly when that event is a user event about that user |
| Model.FoldId | src/main/kotlin/twits/model.kt:69-73 | replaying a user's stream sets its id exactly when the stream contains its creation event |
| Model.LoadUser | src/main/kotlin/twits/model.kt:15-32 | loading publishes one `UserCreated` when the user has no events and nothing otherwise, and the loaded state is the replay of the (possibly extended) stream from a blank user |
| Projection.Reduce | src/main/kotlin/twits/model.kt:24-25 | the left fold from the first event of the slice to the last, as Reactor's `reduce(seed, step)` computes it; it carries no contract of its own, and Projection.ReduceAppend states its law |
| Projection.ReduceAppend | src/main/kotlin/twits/model.kt:24-25 | folding a longer slice continues from where the fold of its first part ended, so an appended event is one more step of every view |
| Model.Replay | src/main/kotlin/twits/model.kt:24-25 | replaying a stream from a blank user gives an id only through a `UserCreated` of that stream, and the id then names that event's user |
| Model.LoadOnlySetsId | src/main/kotlin/twits/model.kt:20-25 | the automatic creation event changes nothing in the loaded user except its id |
| Model.LoadTwice | src/main/kotlin/twits/model.kt:15-32 | loading a user a second time publishes nothing more and yields the same state, so at most one `UserCreated` is auto-created |
| Model.CreatePost | src/main/kotlin/twits/model.kt:36-44 | the counter advances by one, the new id is the new counter value, `PostCreated` is published with that id, author and text; on a log whose post ids are at most the counter, the new id was unused before and the bound is kept |
| Model.NextIdUnused | src/main/kotlin/twits/model.kt:37-39 | while the counter bounds every post id in the log, the id after the counter names no aggregate of the log |
| Model.CreateIdsIncrease | src/main/kotlin/twits/model.kt:37-39 | two successive post creations hand out strictly increasing, consecutive ids |
| Model.Apply | src/main/kotlin/twits/model.kt:93-96 | applying an event appends it to the log and folds it into the in-memory user, and nothing else |
| Model.PostMessage | src/main/kotlin/twits/model.kt:85-87 | posting fails exactly when the user has no id; otherwise it appends `PostSent` and the post joins the end of the wall, all else unchanged |
| Model.Receive | src/main/kotlin/twits/model.kt:89-91 | receiving fails exactly when the user has no id; otherwise it appends a `PostReceived` carrying the post's author and text, and the post joins the end of the timeline |
| Model.Follow | src/main/kotlin/twits/model.kt:100-109 | following an already followed user emits nothing; otherwise `FollowingStarted` is appended and the user is added to `followed`; afterwards the user is followed |
| Model.Unfollow | src/main/kotlin/twits/model.kt:111-120 | unfollowing a user not followed emits nothing; otherwise `FollowingEnded` is appended and the first occurrence is removed; on a duplicate-free list the user is then gone |
| Model.AddFollower | src/main/kotlin/twits/model.kt:122-131 | the follower-side mirror of `Follow`: a present follower emits nothing, a new one emits `FollowerAdded` and is appended |
| Model.RemoveFollower | src/main/kotlin/twits/model.kt:133-142 | the follower-side mirror of `Unfollow`: an absent follower emits nothing, a present one emits `FollowerRemoved` and is removed |
| Lists.RemoveFirst | src/main/kotlin/twits/model.kt:117-120 | removal leaves the list as it was when the value is absent, and otherwise cuts out exactly the first position holding it (Lists.FirstIndex), keeping everything before and after |
| Lists.RemoveFirstMultiset | src/main/kotlin/twits/model.kt:117-120 | removal takes exactly one copy of the value out of the list's multiset, and nothing else |
| Lists.RemoveFirstKeepsOrder | src/main/kotlin/twits/model.kt:117-120 | removal keeps the remaining users in their original order |
| Lists.RemoveFirstNoDup | src/main/kotlin/twits/model.kt:139-142 | on a duplicate-free list the removed user no longer occurs and the list stays duplicate-free |
| Model.FollowTwice | src/main/kotlin/twits/model.kt:100-109 | after a successful `follow`, a second `follow` of the same user changes nothing |
| Model.AddFollowerTwice | src/main/kotlin/twits/model.kt:122-131 | after a successful `addFollower`, a second `addFollower` of the same user changes nothing |
| Model.GuardedFacts | src/main/kotlin/twits/model.kt:100-142 | on a stream produced through the guards, a non-empty stream gives a user with an id, and `followed` and `followers` hold no duplicates |
| Model.StepKeepsGuarded | src/main/kotlin/twits/model.kt:100-137 | appending an event the guard of its command allows keeps every stream guarded |
| Model.PostEventKeepsStreams | src/main/kotlin/twits/model.kt:36-44 | a post-category event changes no user's stream and keeps every stream guarded |
| Model.ApplyKeepsReplay | src/main/kotlin/twits/model.kt:93-96 | after `apply` the in-memory user is still the replay of its stream, and every other user's stream is untouched |
| Model.LoadUserConsistent | src/main/kotlin/twits/model.kt:15-26 | on a guarded log, loading gives a user with its own id whose state is the replay of its stream |
| Model.CommandsKeepConsistent | src/main/kotlin/twits/model.kt:85-142 | on a loaded user every command succeeds and leaves the state equal to the replay of the stream, with all streams guarded |
| Model.ApplyConsistent | src/main/kotlin/twits/model.kt:93-96 | applying an allowed event about the user keeps the state equal to the replay of the stream |
| TwitService.UserEvents | src/main/kotlin/twits/TwitService.kt:66-68 | a user's event query holds exactly the user events about that user |
| TwitService.SubmitPost | src/main/kotlin/twits/TwitService.kt:21-24 | posting as a user id loads (or creates) the author, then appends `PostCreated` followed by the author's `PostSent`, and returns the next post id |
| TwitService.PostAs | src/main/kotlin/twits/TwitService.kt:26-34 | posting as a loaded user fails without an id; otherwise `PostCreated` comes right before `PostSent` and the id is the advanced counter |
| TwitService.FanOut | src/main/kotlin/twits/TwitService.kt:30-32 | the fan-out only appends to the log |
| TwitService.Deliver | src/main/kotlin/twits/TwitService.kt:31-32 | one delivery loads (or creates) the follower and appends one `PostReceived` to it, failing only if the loaded user has no id |
| TwitService.Follow | src/main/kotlin/twits/TwitService.kt:46-49 | following never touches the post-id counter |
| TwitService.Unfollow | src/main/kotlin/twits/TwitService.kt:51-54 | unfollowing never touches the post-id counter |
| TwitService.Reset | src/main/kotlin/twits/events.kt:32-34 | clearing the log leaves a valid store in which no user has events, with the counter kept |
| TwitService.Wall | src/main/kotlin/twits/TwitService.kt:36-44 | every wall entry is authored by the user and comes from one of the user's `PostSent` events |
| TwitService.Timeline | src/main/kotlin/twits/TwitService.kt:56-64 | every timeline entry comes from a `PostReceived` event delivered to the user |
| TwitService.WallStep | src/main/kotlin/twits/TwitService.kt:37-40 | wall's `updateProjection`: it carries no contract of its own, and TwitService.ReadModelsAdd states its effect: a `PostSent` goes to the front, and any other event leaves the wall alone |
| TwitService.TimelineStep | src/main/kotlin/twits/TwitService.kt:57-60 | timeline's `updateProjection`: it carries no contract of its own, and TwitService.ReadModelsAdd states its effect: a `PostReceived` goes to the front, and any other event leaves the timeline alone |
| TwitService.ReadModelsMirrorAggregate | src/main/kotlin/twits/TwitService.kt:36-64 | the wall and timeline read-models are the aggregate's wall and timeline (model.kt:75-83) in reverse, newest first |
| TwitService.ReadModelsAdd | src/main/kotlin/twits/TwitService.kt:36-64 | an appended `PostSent` goes to the front of its author's wall, an appended `PostReceived` to the front of its recipient's timeline, and nothing else changes either view |
| TwitService.DeliveriesAdd | src/main/kotlin/twits/TwitService.kt:30-32 | the deliveries in a log grow by an appended event exactly when it is a `PostReceived` |
| TwitService.FanOutSucceeds | src/main/kotlin/twits/TwitService.kt:30-32 | on a guarded log the fan-out never fails, keeps every stream guarded and issues no post ids |
| TwitService.FanOutDeliveries | src/main/kotlin/twits/TwitService.kt:30-32 | the fan-out appends exactly one `PostReceived(f, author, text)` per follower `f`, in followers-list order |
| TwitService.FanOutSkipsOthers | src/main/kotlin/twits/TwitService.kt:30-32 | a user outside the follower snapshot gets no new event from the fan-out |
| TwitService.FanOutTimelines | src/main/kotlin/twits/TwitService.kt:30-32 | every follower's timeline gains the post at its front once per occurrence in the snapshot; everybody else's is unchanged |
| TwitService.FanOutWalls | src/main/kotlin/twits/TwitService.kt:30-32 | the fan-out changes nobody's wall |
| TwitService.FanOutKeepsPosts | src/main/kotlin/twits/TwitService.kt:30-32 | the fan-out adds nothing to the post category |
| TwitService.PostKeepsValid | src/main/kotlin/twits/TwitService.kt:21-34 | on a valid store posting always succeeds, returns the next id and keeps the store valid |
| TwitService.PostDelivers | src/main/kotlin/twits/TwitService.kt:26-34 | a post adds exactly one `PostReceived` per follower of the author, in followers-list order, and no other delivery |
| TwitService.PostTimelines | src/main/kotlin/twits/TwitService.kt:26-34 | after a post, a follower's timeline has the post at its front and every other timeline is unchanged |
| TwitService.PostWalls | src/main/kotlin/twits/TwitService.kt:26-34 | after a post, the author's wall has it at the front and every other wall is unchanged |
| TwitService.PostSkipsOthers | src/main/kotlin/twits/TwitService.kt:30-32 | a user who is neither the author nor a follower gets no new event from a post |
| TwitService.PostAddsOnePost | src/main/kotlin/twits/TwitService.kt:26-27 | a post adds exactly one `PostCreated`, with the next id, the author and the text, to the post category |
| TwitService.PostCreatesAuthor | src/main/kotlin/twits/TwitService.kt:21-23 | posting as a user with no events first publishes that user's creation, then `PostCreated` and `PostSent` |
| TwitService.FollowEffects | src/main/kotlin/twits/TwitService.kt:46-49 | following always succeeds on a valid store, keeps it valid and the post category unchanged, and afterwards the follower follows the followed user and is among their followers; every other user keeps their event stream; for two distinct users, the follower's stream gains at most its creation and one `FollowingStarted`, and the followed user's at most its creation and one `FollowerAdded`, each only when the link was missing |
| TwitService.UnfollowEffects | src/main/kotlin/twits/TwitService.kt:51-54 | unfollowing always succeeds on a valid store, keeps it valid and the post category unchanged, and afterwards neither side of the relationship remains; every other user keeps their event stream; for two distinct users, the follower's stream gains at most its creation and one `FollowingEnded`, and the followed user's at most its creation and one `FollowerRemoved`, each only when the link was there |
| TwitService.FollowLinks | src/main/kotlin/twits/TwitService.kt:46-49 | on a valid store `follow` succeeds, keeps the store valid and the post category, and sets the link on both sides |
| TwitService.FollowKeepsOthers | src/main/kotlin/twits/TwitService.kt:46-49 | `follow(a, b)` leaves the event stream of every user other than `a` and `b` as it was |
| TwitService.FollowerStream | src/main/kotlin/twits/TwitService.kt:47 | for distinct users, the follower's stream is its loaded stream plus one `FollowingStarted` exactly when it did not yet follow |
| TwitService.FollowedStream | src/main/kotlin/twits/TwitService.kt:48 | for distinct users, the followed user's stream is its loaded stream plus one `FollowerAdded` exactly when the follower was not yet listed |
| TwitService.UnfollowLinks | src/main/kotlin/twits/TwitService.kt:51-54 | on a valid store `unfollow` succeeds, keeps the store valid and the post category, and removes the link on both sides |
| TwitService.UnfollowKeepsOthers | src/main/kotlin/twits/TwitService.kt:51-54 | `unfollow(a, b)` leaves the event stream of every user other than `a` and `b` as it was |
| TwitService.UnfollowerStream | src/main/kotlin/twits/TwitService.kt:52 | for distinct users, the follower's stream is its loaded stream plus one `FollowingEnded` exactly when it followed |
| TwitService.UnfollowedStream | src/main/kotlin/twits/TwitService.kt:53 | for distinct users, the followed user's stream is its loaded stream plus one `FollowerRemoved` exactly when the follower was listed |
| TwitService.LoadedStream | src/main/kotlin/twits/model.kt:15-32 | loading extends a stream only by the auto-created `UserCreated`, and the loaded follow lists are those of the replayed stream |
| TwitService.FollowStepStream | src/main/kotlin/twits/model.kt:100-104 | `follow` on a loaded user appends `FollowingStarted` to its stream exactly when the followed id is not yet listed |
| TwitService.AddFollowerStepStream | src/main/kotlin/twits/model.kt:122-126 | `addFollower` on a loaded user appends `FollowerAdded` to its stream exactly when the follower is not yet listed |
| TwitService.UnfollowStepStream | src/main/kotlin/twits/model.kt:111-115 | `unfollow` on a loaded user appends `FollowingEnded` to its stream exactly when the followed id is listed |
| TwitService.RemoveFollowerStepStream | src/main/kotlin/twits/model.kt:133-137 | `removeFollower` on a loaded user appends `FollowerRemoved` to its stream exactly when the follower is listed |
| TwitService.LinksAdd | src/main/kotlin/twits/model.kt:85-142 | only the four link events change a user's `followed` or `followers` list; any other appended event leaves every user's lists alone |
| TwitService.LoadKeepsLinks | src/main/kotlin/twits/model.kt:15-32 | loading a user changes nobody's follow lists |
| TwitService.SentLinks | src/main/kotlin/twits/TwitService.kt:26-29 | loading the author, creating the post and sending it change nobody's follow lists |
| TwitService.FanOutLinks | src/main/kotlin/twits/TwitService.kt:30-32 | the fan-out changes nobody's follow lists |
| TwitService.PostKeepsLinks | src/main/kotlin/twits/TwitService.kt:21-34 | a post on a valid store succeeds and leaves every user's `followed` and `followers` lists as they were |
| TwitService.FollowCreatesFollowed | src/main/kotlin/twits/TwitService.kt:46-49 | being followed creates a user with no events and gives it exactly one follower |
| UserHandler.UpdateUserOutput | src/main/kotlin/twits/web/UserHandler.kt:54-62 | the projection exists exactly once a creation has been seen; the first creation seeds name and zero counts, later creations change nothing; on an existing output `FollowerAdded`/`FollowerRemoved` move the follower count by +1/-1, `FollowingStarted`/`FollowingEnded` move the followed count by +1/-1, `PostSent` adds 1 to the post count, and every other event leaves all three counts alone |
| UserHandler.FoldKeepsOutput | src/main/kotlin/twits/web/UserHandler.kt:56-61 | once a projection exists, no later event removes it or changes its name |
| UserHandler.EarlyEventsLost | src/main/kotlin/twits/web/UserHandler.kt:56-60 | counter events folded before any creation are lost |
| UserHandler.FoldFindsCreation | src/main/kotlin/twits/web/UserHandler.kt:54-62 | the fold yields a projection exactly when the stream contains a creation event |
| UserHandler.UserProjection | src/main/kotlin/twits/web/UserHandler.kt:64-68 | a user is found exactly when its `UserCreated` is in the log, and then under its own name |
| UserHandler.CountsFollowAggregate | src/main/kotlin/twits/web/UserHandler.kt:54-62 | on a guarded stream the counts are the lengths of the replayed user's followed list, followers list and wall |
| UserHandler.FreshUserReportsZero | src/main/kotlin/twits/web/web-model.kt:8-12 | a user created by loading reports its name and counts 0, 0, 0 |
| UserHandler.CountsMatchAggregate | src/main/kotlin/twits/web/UserHandler.kt:64-68 | on a valid store the reported counts equal the aggregate's followed, followers and wall lengths, and users without events are not found |
| UserHandler.Less | src/main/kotlin/twits/web/UserHandler.kt:42 | one name sorts before another exactly when, at the first position where they differ, the first name has ended or has the smaller character |
| UserHandler.LessIrreflexive | src/main/kotlin/twits/web/UserHandler.kt:42 | no name sorts before itself |
| UserHandler.LessTransitive | src/main/kotlin/twits/web/UserHandler.kt:42 | the name order is transitive |
| UserHandler.LessTotal | src/main/kotlin/twits/web/UserHandler.kt:42 | any two distinct names are ordered one way or the other |
| UserHandler.Insert | src/main/kotlin/twits/web/UserHandler.kt:42 | insertion adds exactly the one entry |
| UserHandler.InsertSorted | src/main/kotlin/twits/web/UserHandler.kt:42 | inserting an entry with a new name into a name-sorted list keeps it sorted |
| UserHandler.SortByName | src/main/kotlin/twits/web/UserHandler.kt:42 | sorting is a permutation of its input |
| UserHandler.SortSorts | src/main/kotlin/twits/web/UserHandler.kt:42 | the sorted list of entries with distinct names is strictly ascending by name |
| UserHandler.UserKeys | src/main/kotlin/twits/web/UserHandler.kt:39 | grouping by user id yields each user id of the category exactly once |
| UserHandler.GroupOutput | src/main/kotlin/twits/web/UserHandler.kt:40 | folding one group of the USER category gives the same projection as the user's own stream |
| UserHandler.Outputs | src/main/kotlin/twits/web/UserHandler.kt:40-41 | the directory holds a user's projection exactly when the user's group yields one |
| UserHandler.OutputsDistinct | src/main/kotlin/twits/web/UserHandler.kt:39-41 | directory entries from distinct groups have distinct names |
| UserHandler.Users | src/main/kotlin/twits/web/UserHandler.kt:37-44 | the directory is strictly sorted by name, holds only outputs that `user` would answer for that name, and holds every user that `user` finds |
| UserHandler.CreatePost | src/main/kotlin/twits/web/UserHandler.kt:99-102 | text longer than 140 characters is rejected with no effect on the store; otherwise the service post runs and its id is returned |
| UserHandler.CreatePostAccepts | src/main/kotlin/twits/web/UserHandler.kt:99-102 | on a valid store text of at most 140 characters is always accepted, with the next post id, and the store stays valid |
| PostHandler.UpdatePost | src/main/kotlin/twits/web/PostHandler.kt:19-22 | the first `PostCreated` seeds the output with its author's name and its text, an output exists exactly once a `PostCreated` has been seen, and nothing afterwards changes it |
| PostHandler.Posts | src/main/kotlin/twits/web/PostHandler.kt:18-31 | every feed entry is the author name and text of some `PostCreated` of the log |
| PostHandler.GroupEntry | src/main/kotlin/twits/web/PostHandler.kt:27-28 | one group's `reduce` flattened into the feed contributes at most one entry; PostHandler.EntrySound, PostHandler.FoldIsFirstCreated and PostHandler.FoldWithoutCreated say which |
| PostHandler.EntrySound | src/main/kotlin/twits/web/PostHandler.kt:19-28 | a group's entry, when it has one, is the author name and text of a `PostCreated` of the category |
| PostHandler.Collect | src/main/kotlin/twits/web/PostHandler.kt:26-28 | the per-group outputs flattened in group order give at most one entry per group |
| PostHandler.CollectAppend | src/main/kotlin/twits/web/PostHandler.kt:26-28 | the flattened outputs of two runs of groups are the outputs of the first run followed by those of the second |
| PostHandler.PostKeys | src/main/kotlin/twits/web/PostHandler.kt:26 | grouping by post id yields each post id of the category exactly once |
| PostHandler.FoldKeepsPost | src/main/kotlin/twits/web/PostHandler.kt:19-22 | once an output exists, later events of the group leave it unchanged |
| PostHandler.FoldIsFirstCreated | src/main/kotlin/twits/web/PostHandler.kt:19-27 | a group's output carries the author name and text of its first `PostCreated` |
| PostHandler.FoldWithoutCreated | src/main/kotlin/twits/web/PostHandler.kt:19-22 | a group with no `PostCreated` contributes nothing to the feed |
| PostHandler.CategoryAdd | src/main/kotlin/twits/web/PostHandler.kt:24-26 | a new post event adds its id as the last group if unseen, extends only its own group, and leaves every other group alone |
| PostHandler.PostsIgnoreUserEvents | src/main/kotlin/twits/web/PostHandler.kt:24-25 | user events never change the post feed |
| PostHandler.FreshPostAppends | src/main/kotlin/twits/web/PostHandler.kt:24-28 | creating a post with an unused id appends exactly its author name and text to the end of the feed |
| PostHandler.LaterEventIgnored | src/main/kotlin/twits/web/PostHandler.kt:19-22 | a post event for an id that already has a `PostCreated` leaves the feed unchanged |
| PostHandler.ServicePostAddsEntry | src/main/kotlin/twits/web/PostHandler.kt:24-28 | each service post adds exactly one feed entry, at the end, with the author's name and the text |
| PostHandler.ServeOne | src/main/kotlin/twits/TwitService.kt:21-54 | on a valid store every service command succeeds, keeps the store valid, and adds a feed entry only for a post |
| PostHandler.FeedInCreationOrder | src/main/kotlin/twits/web/PostHandler.kt:24-28 | after any sequence of service commands the feed is the earlier feed followed by one entry per post, in the order the posts were made, whatever the follow graph |

## Left out

- Event timestamps (`LocalDateTime.now()`) and the `created` field of the user output: they only record when something happened, and order is append order.
- Thread safety of `CopyOnWriteArrayList` and `AtomicLong`: the model is sequential.
- Model.CreatePost: post ids are unbounded naturals, so `AtomicLong` wrap-around after 2^63 ids is not modelled.
- UserHandler.UpdateUserOutput: counts are unbounded integers, so 32-bit `Int` overflow is not modelled.
- UserHandler.CreatePost: the length limit counts Dafny characters, while Kotlin's `String.length` counts UTF-16 code units; the two differ for characters outside the Basic Multilingual Plane.
- UserHandler.Less: names are compared character by character, whereas `String.compareTo` compares UTF-16 code units; the orders differ only outside the Basic Multilingual Plane.
- UserHandler.Users: Reactor's `groupBy` completes its groups in an order the library does not fix. The model takes groups in order of first appearance. For the directory this does not matter, because it is sorted afterwards.
- PostHandler.Posts: the same `groupBy` detail means the code itself does not fix the feed order. The model takes groups in first-appearance order, which is post-creation order, so PostHandler.FeedInCreationOrder holds for that reading only.
- Projection.Reduce: the fold carries no postcondition of its own, because one would be instantiated at every fold in the model; Projection.ReduceAppend and Projection.ReduceSnoc state its law.
- TwitService.WallStep and TwitService.TimelineStep: the projection steps carry no postcondition of their own, because one would be instantiated at every fold of the views; TwitService.ReadModelsAdd states their effect.
- PostHandler.GroupEntry: its own contract bounds it to one entry; PostHandler.EntrySound, PostHandler.FoldIsFirstCreated and PostHandler.FoldWithoutCreated state which entry, and when there is none.
- PostHandler.Collect: its own contract bounds the entries by the groups; PostHandler.CollectAppend states how the groups' outputs concatenate.
- TwitService.FollowEffects and TwitService.UnfollowEffects: the exact growth of the two participants' streams is stated for two distinct users; for a user following itself, only the link and the frame are stated.
- Model.Replay: its contract speaks only of the id; the lists it rebuilds are described through Model.LoadUser, Model.GuardedFacts and TwitService.ReadModelsMirrorAggregate.
- TwitService.Wall: its own contract states only where each entry comes from; its exact contents and newest-first order are stated by TwitService.ReadModelsMirrorAggregate and TwitService.ReadModelsAdd.
- TwitService.Timeline: likewise only the source of each entry; TwitService.ReadModelsMirrorAggregate and TwitService.ReadModelsAdd state the exact contents and order.
- PostHandler.Posts: its own contract states only that every entry comes from a `PostCreated`; which entries appear and in what order is stated by PostHandler.FreshPostAppends, PostHandler.LaterEventIgnored and PostHandler.FeedInCreationOrder.
- Model.PostMessage, Model.Receive, Model.Follow and the other commands: the `userId!!` exception is the error result `UserIdUnset`. Events that a service call published before failing part-way are not modelled; the service lemmas show the error cannot arise on a valid store.
- `UserHandler.addUser`: it returns "created" and does nothing else, so there is nothing to model.
- HTTP routing, status codes, URIs and JSON bodies (`ApiRoutes.kt`, the response builders in the handlers, `TwitApplication.kt`). Only the decision that over-long text is an error is kept.
- Spring wiring in `Configuration.kt`, apart from the fact that publishing appends to the repository.
- Reactor `Mono`/`Flux`/`subscribe`/`block` mechanics: they are `Option` and `seq`, and the subscriptions run synchronously.
- Reflection-based dispatch in `on`: it is a `match` with a default arm that ignores the event.
- `User.posts()`, the `followed`/`followers` getters and `Post.toOutput()`: these are plain accessors, read directly as fields.
- The legacy `twit.twit` package: it is a superseded duplicate and is not part of this model.
- `PostHandler.Serve` and `PostHandler.Run`: these are not in the source. They are a request driver that feeds the service one command after another, so that PostHandler.FeedInCreationOrder can speak about any history.
