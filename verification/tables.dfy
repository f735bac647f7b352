/**
 * The invariant of the stored tables, stated on their values: the id lists
 * catalogue the collections, every stored document passes its schema, emails
 * are unique, requests sit with their receiver and post counts match the post
 * lists. Each write the handlers make keeps it.
 */
module Tables {
  import opened Schema
  import opened UserModel
  import opened PostModel
  import opened FollowRequestController
  import opened PostController
  import opened UserController

  /** The ids an id list holds. */
  ghost function IdSet(ids: seq<nat>): set<nat>
  {
    if ids == [] then {} else {ids[0]} + IdSet(ids[1..])
  }

  /** No id occurs twice. */
  ghost predicate Distinct(ids: seq<nat>)
  {
    ids == [] || (ids[0] !in ids[1..] && Distinct(ids[1..]))
  }

  lemma {:induction false} IdSetMembers(ids: seq<nat>)
    ensures forall k :: k in IdSet(ids) <==> k in ids
  {
    if ids != [] {
      IdSetMembers(ids[1..]);
      assert forall k :: k in ids <==> k == ids[0] || k in ids[1..];
    }
  }

  lemma {:induction false} DistinctAppend(ids: seq<nat>, x: nat)
    requires Distinct(ids) && x !in ids
    ensures Distinct(ids + [x])
  {
    if ids != [] {
      assert (ids + [x])[1..] == ids[1..] + [x];
      DistinctAppend(ids[1..], x);
    }
  }

  lemma {:induction false} DistinctNoRepeats(ids: seq<nat>)
    requires Distinct(ids)
    ensures NoRepeats(ids)
  {
    if ids != [] {
      DistinctNoRepeats(ids[1..]);
      forall i, j | 0 <= i < j < |ids| ensures ids[i] != ids[j] {
        assert ids[j] == ids[1..][j - 1];
        if i > 0 {
          assert ids[i] == ids[1..][i - 1];
        }
      }
    }
  }

  /** `ids` lists the keys `keys` once each, and every key is below `next`. */
  ghost predicate Catalogued(keys: set<nat>, ids: seq<nat>, next: nat)
  {
    && keys == IdSet(ids)
    && Distinct(ids)
    && (forall k :: k in keys ==> k < next)
  }

  /** Storing a document under the next fresh id keeps the catalogue. */
  lemma CataloguedExtend(keys: set<nat>, ids: seq<nat>, next: nat)
    requires Catalogued(keys, ids, next)
    ensures next !in keys
    ensures Catalogued(keys + {next}, ids + [next], next + 1)
  {
    IdSetMembers(ids);
    IdSetMembers(ids + [next]);
    DistinctAppend(ids, next);
  }

  /** Storing a valid post keeps every stored post valid. */
  lemma PostsValidExtend(posts: map<PostId, Post>, id: PostId, p: Post)
    requires PostsValid(posts) && ValidPost(p)
    ensures PostsValid(posts[id := p])
  {
  }

  /** What holds of the user table between any two handlers. */
  ghost predicate UsersInvariant(users: map<UserId, User>)
  {
    && (forall u {:trigger ValidUser(users[u])} :: u in users ==> ValidUser(users[u]))
    && EmailsUnique(users)
    && RequestsAddressed(users)
    && PostCountsAgree(users)
  }

  ghost predicate PostsValid(posts: map<PostId, Post>)
  {
    forall p {:trigger ValidPost(posts[p])} :: p in posts ==> ValidPost(posts[p])
  }

  /** `after` differs from `users` at most in the relationship lists of its documents. */
  ghost predicate RelationsOnly(users: map<UserId, User>, after: map<UserId, User>)
  {
    && after.Keys == users.Keys
    && forall u :: u in users ==>
         after[u] == users[u].(followers := after[u].followers, following := after[u].following,
                               followRequests := after[u].followRequests)
  }

  /** An update of relationship lists alone that keeps requests addressed keeps the invariant. */
  lemma RelationsOnlyKeepInvariant(users: map<UserId, User>, after: map<UserId, User>)
    requires UsersInvariant(users) && RelationsOnly(users, after) && RequestsAddressed(after)
    ensures UsersInvariant(after)
  {
    forall u | u in after ensures ValidUser(after[u]) && after[u].postCount == |after[u].posts| {
      assert ValidUser(users[u]);
    }
  }

  lemma ClearKeepsInvariant(users: map<UserId, User>)
    requires UsersInvariant(users)
    ensures UsersInvariant(ClearRequests(users))
  {
    ClearKeepsRequestsAddressed(users);
    RelationsOnlyKeepInvariant(users, ClearRequests(users));
  }

  lemma SendKeepsInvariant(users: map<UserId, User>, senderId: UserId, receiverId: UserId, now: Timestamp)
    requires UsersInvariant(users)
    ensures UsersInvariant(SendRequest(users, senderId, receiverId, now))
  {
    SendKeepsRequestsAddressed(users, senderId, receiverId, now);
    RelationsOnlyKeepInvariant(users, SendRequest(users, senderId, receiverId, now));
  }

  lemma AcceptKeepsInvariant(users: map<UserId, User>, currentUserId: UserId, requesterId: UserId, now: Timestamp)
    requires UsersInvariant(users)
    ensures UsersInvariant(AcceptRequest(users, currentUserId, requesterId, now))
  {
    AcceptKeepsRequestsAddressed(users, currentUserId, requesterId, now);
    RelationsOnlyKeepInvariant(users, AcceptRequest(users, currentUserId, requesterId, now));
  }

  lemma DenyKeepsInvariant(users: map<UserId, User>, currentUserId: UserId, requesterId: UserId)
    requires UsersInvariant(users)
    ensures UsersInvariant(DenyRequest(users, currentUserId, requesterId))
  {
    DenyKeepsRequestsAddressed(users, currentUserId, requesterId);
    RelationsOnlyKeepInvariant(users, DenyRequest(users, currentUserId, requesterId));
  }

  lemma PostAddedKeepsInvariant(users: map<UserId, User>, callerId: UserId, postId: PostId)
    requires UsersInvariant(users) && callerId in users
    ensures UsersInvariant(PostAdded(users, callerId, postId))
  {
    PostAddedKeepsPostCounts(users, callerId, postId);
    var after := PostAdded(users, callerId, postId);
    forall u | u in after
      ensures ValidUser(after[u]) && after[u].email == users[u].email
      ensures after[u].followRequests == users[u].followRequests
    {
      assert ValidUser(users[u]);
    }
  }

  /** Inserting a valid user with no requests, its own post count and an email no stored user has keeps the invariant. */
  lemma InsertKeepsInvariant(users: map<UserId, User>, id: UserId, u: User)
    requires UsersInvariant(users) && id !in users
    requires ValidUser(u) && u.followRequests == [] && u.postCount == |u.posts|
    requires forall v :: v in users ==> users[v].email != u.email
    ensures UsersInvariant(users[id := u])
  {
    var after := users[id := u];
    forall v | v in after ensures ValidUser(after[v]) && after[v].postCount == |after[v].posts| {
      if v != id {
        assert after[v] == users[v] && ValidUser(users[v]);
      }
    }
    forall v, i | v in after && 0 <= i < |after[v].followRequests| ensures after[v].followRequests[i].receiver == v {
      assert v != id && after[v] == users[v];
    }
    forall a, b | a in after && b in after && a != b ensures after[a].email != after[b].email {
      if a != id && b != id {
        assert after[a] == users[a] && after[b] == users[b];
      }
    }
  }

  lemma PostAddedKeepsMirror(users: map<UserId, User>, callerId: UserId, postId: PostId)
    requires Mirror(users) && callerId in users
    ensures Mirror(PostAdded(users, callerId, postId))
  {
    var r := PostAdded(users, callerId, postId);
    assert forall u :: u in r ==> r[u].followers == users[u].followers && r[u].following == users[u].following;
  }

  /**
   * Inserting a user with no relations keeps the two sides in step, provided
   * no stored entry already names the new id.
   */
  lemma InsertKeepsMirror(users: map<UserId, User>, id: UserId, u: User)
    requires Mirror(users) && id !in users && u.followers == [] && u.following == []
    requires forall v, t :: v in users ==> Follower(id, t) !in users[v].following && Follower(id, t) !in users[v].followers
    ensures Mirror(users[id := u])
  {
  }

  /**
   * The proviso is needed: an accept naming a requester that is not stored
   * plants an entry for that id, and a user later stored under it starts with
   * empty lists, so its side of that relation is missing.
   */
  lemma DanglingAcceptThenInsertBreaksMirror(users: map<UserId, User>, cur: UserId, n: UserId, now: Timestamp, u: User)
    requires cur in users && n !in users && u.followers == [] && u.following == []
    ensures !Mirror(AcceptRequest(users, cur, n, now)[n := u])
  {
    var after := AcceptRequest(users, cur, n, now)[n := u];
    assert after[cur].followers[|after[cur].followers| - 1] == Follower(n, now);
    assert Follower(n, now) in after[cur].followers && Follower(cur, now) !in after[n].following;
  }

  /**
   * The same happens from the other side: an accept by a current user that is
   * not stored still writes the requester's following entry for that id.
   */
  lemma MissingCurrentAcceptThenInsertBreaksMirror(users: map<UserId, User>, cur: UserId, req: UserId, now: Timestamp, u: User)
    requires req in users && cur !in users && u.followers == [] && u.following == []
    ensures !Mirror(AcceptRequest(users, cur, req, now)[cur := u])
  {
    var after := AcceptRequest(users, cur, req, now)[cur := u];
    assert after[req].following[|after[req].following| - 1] == Follower(cur, now);
    assert Follower(cur, now) in after[req].following && Follower(req, now) !in after[cur].followers;
  }

  /** The whole invariant of the stored tables. */
  ghost predicate Consistent(users: map<UserId, User>, userIds: seq<UserId>, nextUserId: UserId,
                             posts: map<PostId, Post>, postIds: seq<PostId>, nextPostId: PostId)
  {
    && Catalogued(users.Keys, userIds, nextUserId)
    && Catalogued(posts.Keys, postIds, nextPostId)
    && UsersInvariant(users)
    && PostsValid(posts)
  }

  /** On consistent tables the explore listing of a stored caller is served and lists each user once. */
  lemma StoredExploreHasNoRepeats(users: map<UserId, User>, userIds: seq<UserId>, nextUserId: UserId,
                                  posts: map<PostId, Post>, postIds: seq<PostId>, nextPostId: PostId, callerId: UserId)
    requires Consistent(users, userIds, nextUserId, posts, postIds, nextPostId) && callerId in users
    ensures Explore(users, userIds, callerId).Ok?
    ensures UniqueEntries(Explore(users, userIds, callerId).value)
  {
    DistinctNoRepeats(userIds);
  }

  /** On consistent tables the feed lists each post at most once. */
  lemma StoredFeedHasNoRepeats(users: map<UserId, User>, userIds: seq<UserId>, nextUserId: UserId,
                               posts: map<PostId, Post>, postIds: seq<PostId>, nextPostId: PostId, callerId: UserId)
    requires Consistent(users, userIds, nextUserId, posts, postIds, nextPostId) && callerId in users
    ensures VisiblePosts(users, posts, postIds, callerId).Ok?
    ensures UniqueIds(VisiblePosts(users, posts, postIds, callerId).value)
  {
    DistinctNoRepeats(postIds);
  }

  /** A write to existing user documents that keeps the users' invariant keeps the whole invariant. */
  lemma UsersUpdateKeepsConsistent(users: map<UserId, User>, after: map<UserId, User>, userIds: seq<UserId>,
                                   nextUserId: UserId, posts: map<PostId, Post>, postIds: seq<PostId>,
                                   nextPostId: PostId)
    requires Consistent(users, userIds, nextUserId, posts, postIds, nextPostId)
    requires after.Keys == users.Keys && UsersInvariant(after)
    ensures Consistent(after, userIds, nextUserId, posts, postIds, nextPostId)
  {
  }

  /** createPost's writes keep the invariant: the post under the next id, its id on the caller. */
  lemma CreatePostKeepsConsistent(users: map<UserId, User>, userIds: seq<UserId>, nextUserId: UserId,
                                  posts: map<PostId, Post>, postIds: seq<PostId>, nextPostId: PostId,
                                  callerId: UserId, p: Post)
    requires Consistent(users, userIds, nextUserId, posts, postIds, nextPostId)
    requires callerId in users && ValidPost(p)
    ensures nextPostId !in posts
    ensures Consistent(PostAdded(users, callerId, nextPostId), userIds, nextUserId,
                       posts[nextPostId := p], postIds + [nextPostId], nextPostId + 1)
  {
    CataloguedExtend(posts.Keys, postIds, nextPostId);
    PostsValidExtend(posts, nextPostId, p);
    PostAddedKeepsInvariant(users, callerId, nextPostId);
    assert PostAdded(users, callerId, nextPostId).Keys == users.Keys;
    assert posts[nextPostId := p].Keys == posts.Keys + {nextPostId};
  }

  /** registerUser's insert keeps the invariant: the new user under the next id. */
  lemma InsertUserKeepsConsistent(users: map<UserId, User>, userIds: seq<UserId>, nextUserId: UserId,
                                  posts: map<PostId, Post>, postIds: seq<PostId>, nextPostId: PostId, u: User)
    requires Consistent(users, userIds, nextUserId, posts, postIds, nextPostId)
    requires ValidUser(u) && u.followRequests == [] && u.postCount == |u.posts|
    requires forall v :: v in users ==> users[v].email != u.email
    ensures nextUserId !in users
    ensures Consistent(users[nextUserId := u], userIds + [nextUserId], nextUserId + 1, posts, postIds, nextPostId)
  {
    CataloguedExtend(users.Keys, userIds, nextUserId);
    InsertKeepsInvariant(users, nextUserId, u);
    assert users[nextUserId := u].Keys == users.Keys + {nextUserId};
  }

  /**
   * The user registerUser builds is fit to insert: it passes the schema, has
   * no requests and no posts, and no stored user has its email.
   */
  lemma RegisteredUserFits(users: map<UserId, User>, userIds: seq<UserId>, nextUserId: UserId,
                           posts: map<PostId, Post>, postIds: seq<PostId>, nextPostId: PostId,
                           reg: Registration, hash: string -> string, now: Timestamp)
    requires Consistent(users, userIds, nextUserId, posts, postIds, nextPostId)
    requires Register(users, userIds, reg, hash, now).Inserted?
    ensures var u := Register(users, userIds, reg, hash, now).user;
      && ValidUser(u) && u.followRequests == [] && u.postCount == |u.posts|
      && forall v :: v in users ==> users[v].email != u.email
  {
    IdSetMembers(userIds);
  }
}
