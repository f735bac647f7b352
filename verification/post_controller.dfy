/**
 * The feed (Controllers/postControllers.js): which posts a caller may see,
 * newest first, and the user-side bookkeeping of creating a post.
 *
 * The post table is a map from id to document; `postIds` lists the ids in the
 * order the store returns documents in.
 */
module PostController {
  import opened Schema
  import opened UserModel
  import opened PostModel
  import opened FollowRequestController

  // ---------------------------------------------------------------------------
  // Visibility
  // ---------------------------------------------------------------------------

  /** The ids of `following` that also occur in `followers`, in the order of `following`. */
  function MutualIds(following: seq<UserId>, followers: seq<UserId>): (r: seq<UserId>)
    ensures |r| <= |following|
    ensures forall x :: x in r <==> x in following && x in followers
  {
    if following == [] then []
    else if following[0] in followers then [following[0]] + MutualIds(following[1..], followers)
    else MutualIds(following[1..], followers)
  }

  /** The query's `$or`: the caller's own posts, posts by followed users, posts by mutual followers. */
  predicate MayView(callerId: UserId, followingIds: seq<UserId>, mutualIds: seq<UserId>, owner: UserId)
  {
    owner == callerId || owner in followingIds || owner in mutualIds
  }

  /** The mutual clause admits nothing the following clause does not already admit. */
  lemma MutualClauseRedundant(callerId: UserId, followingIds: seq<UserId>, followerIds: seq<UserId>, owner: UserId)
    ensures MayView(callerId, followingIds, MutualIds(followingIds, followerIds), owner)
        <==> owner == callerId || owner in followingIds
  {
  }

  /** The owner is the caller or a user the caller follows. */
  predicate Followed(users: map<UserId, User>, callerId: UserId, owner: UserId)
    requires callerId in users
  {
    owner == callerId || owner in FollowIds(users[callerId].following)
  }

  /** The populated `userId` of a returned post; None stands for `null` when the owner is not stored. */
  datatype Author = Author(id: UserId, firstName: string, lastName: string, profileUrl: string)

  datatype PostView = PostView(id: PostId, post: Post, author: Option<Author>)

  function AuthorOf(users: map<UserId, User>, id: UserId): (a: Option<Author>)
    ensures a.Some? <==> id in users
    ensures a.Some? ==> && a.value.id == id && a.value.firstName == users[id].firstName
                        && a.value.lastName == users[id].lastName && a.value.profileUrl == users[id].profileUrl
  {
    if id in users then Some(Author(id, users[id].firstName, users[id].lastName, users[id].profileUrl)) else None
  }

  /** Post `p` is among the returned posts. */
  predicate Listed(r: seq<PostView>, p: PostId)
  {
    exists k :: 0 <= k < |r| && r[k].id == p
  }

  /** `v` is stored post `v.id`, the caller may view it, and its owner is populated. */
  predicate Admitted(users: map<UserId, User>, posts: map<PostId, Post>, callerId: UserId,
                     followingIds: seq<UserId>, mutualIds: seq<UserId>, v: PostView)
  {
    && v.id in posts && v.post == posts[v.id]
    && MayView(callerId, followingIds, mutualIds, v.post.userId)
    && v.author == AuthorOf(users, v.post.userId)
  }

  /** The posts of `ids` the caller may view, in store order, each with its populated owner. */
  function Matching(users: map<UserId, User>, posts: map<PostId, Post>, ids: seq<PostId>,
                    callerId: UserId, followingIds: seq<UserId>, mutualIds: seq<UserId>): (r: seq<PostView>)
    ensures |r| <= |ids|
    ensures forall k :: 0 <= k < |r| ==>
      r[k].id in ids && Admitted(users, posts, callerId, followingIds, mutualIds, r[k])
  {
    if ids == [] then []
    else
      var rest := Matching(users, posts, ids[1..], callerId, followingIds, mutualIds);
      if ids[0] in posts && MayView(callerId, followingIds, mutualIds, posts[ids[0]].userId) then
        var p := posts[ids[0]];
        var r := [PostView(ids[0], p, AuthorOf(users, p.userId))] + rest;
        assert forall k :: 0 <= k < |rest| ==> r[k + 1] == rest[k] && rest[k].id in ids;
        r
      else
        assert forall k :: 0 <= k < |rest| ==> rest[k].id in ids;
        rest
  }

  /** Every stored post of `ids` the caller may view is returned. */
  lemma {:induction false} MatchingComplete(users: map<UserId, User>, posts: map<PostId, Post>, ids: seq<PostId>,
                                            callerId: UserId, followingIds: seq<UserId>, mutualIds: seq<UserId>)
    ensures forall p :: p in ids && p in posts && MayView(callerId, followingIds, mutualIds, posts[p].userId) ==>
      Listed(Matching(users, posts, ids, callerId, followingIds, mutualIds), p)
  {
    if ids != [] {
      MatchingComplete(users, posts, ids[1..], callerId, followingIds, mutualIds);
      var r := Matching(users, posts, ids, callerId, followingIds, mutualIds);
      var rest := Matching(users, posts, ids[1..], callerId, followingIds, mutualIds);
      forall p | p in ids && p in posts && MayView(callerId, followingIds, mutualIds, posts[p].userId)
        ensures Listed(r, p)
      {
        if ids[0] in posts && MayView(callerId, followingIds, mutualIds, posts[ids[0]].userId) {
          if p == ids[0] {
            assert r[0].id == p;
          } else {
            assert p in ids[1..];
            var k :| 0 <= k < |rest| && rest[k].id == p;
            assert r[k + 1] == rest[k];
          }
        } else {
          assert p in ids[1..];
        }
      }
    }
  }

  /** No post occurs twice among the returned posts. */
  predicate UniqueIds(r: seq<PostView>)
  {
    forall i, j :: 0 <= i < j < |r| ==> r[i].id != r[j].id
  }

  /** A query over an id list without repeats returns each post at most once. */
  lemma {:induction false} MatchingUniqueIds(users: map<UserId, User>, posts: map<PostId, Post>, ids: seq<PostId>,
                                             callerId: UserId, followingIds: seq<UserId>, mutualIds: seq<UserId>)
    requires NoRepeats(ids)
    ensures UniqueIds(Matching(users, posts, ids, callerId, followingIds, mutualIds))
  {
    if ids != [] {
      assert NoRepeats(ids[1..]) by {
        forall i, j | 0 <= i < j < |ids[1..]| ensures ids[1..][i] != ids[1..][j] {
          assert ids[1..][i] == ids[i + 1] && ids[1..][j] == ids[j + 1];
        }
      }
      MatchingUniqueIds(users, posts, ids[1..], callerId, followingIds, mutualIds);
      var r := Matching(users, posts, ids, callerId, followingIds, mutualIds);
      var rest := Matching(users, posts, ids[1..], callerId, followingIds, mutualIds);
      if r != rest {
        assert ids[0] !in ids[1..];
        forall i, j | 0 <= i < j < |r| ensures r[i].id != r[j].id {
          assert r[j] == rest[j - 1];
          if i > 0 {
            assert r[i] == rest[i - 1];
          } else {
            assert r[0].id == ids[0] && rest[j - 1].id in ids[1..];
          }
        }
      }
    }
  }

  // ---------------------------------------------------------------------------
  // Newest first
  // ---------------------------------------------------------------------------

  predicate NewestFirst(s: seq<PostView>)
  {
    forall i, j :: 0 <= i < j < |s| ==> s[i].post.createdAt >= s[j].post.createdAt
  }

  /** Insert `x` into a newest-first sequence, ahead of every post not newer than it. */
  function Insert(x: PostView, s: seq<PostView>): seq<PostView>
  {
    if s == [] then [x]
    else if s[0].post.createdAt <= x.post.createdAt then [x] + s
    else [s[0]] + Insert(x, s[1..])
  }

  lemma {:induction false} InsertKeepsPosts(x: PostView, s: seq<PostView>)
    ensures multiset(Insert(x, s)) == multiset(s) + multiset{x}
  {
    if s != [] && s[0].post.createdAt > x.post.createdAt {
      InsertKeepsPosts(x, s[1..]);
      assert s == [s[0]] + s[1..];
    }
  }

  /** Inserting a post no newer than `t` among posts no newer than `t` gives posts no newer than `t`. */
  lemma {:induction false} InsertKeepsBound(x: PostView, s: seq<PostView>, t: Timestamp)
    requires x.post.createdAt <= t
    requires forall k :: 0 <= k < |s| ==> s[k].post.createdAt <= t
    ensures forall k :: 0 <= k < |Insert(x, s)| ==> Insert(x, s)[k].post.createdAt <= t
  {
    if s != [] && s[0].post.createdAt > x.post.createdAt {
      InsertKeepsBound(x, s[1..], t);
      var rest := Insert(x, s[1..]);
      assert forall k :: 0 < k < |rest| + 1 ==> ([s[0]] + rest)[k] == rest[k - 1];
    }
  }

  lemma {:induction false} InsertKeepsNewestFirst(x: PostView, s: seq<PostView>)
    requires NewestFirst(s)
    ensures NewestFirst(Insert(x, s))
  {
    if s != [] && s[0].post.createdAt > x.post.createdAt {
      var rest := Insert(x, s[1..]);
      assert NewestFirst(s[1..]) by {
        forall i, j | 0 <= i < j < |s[1..]| ensures s[1..][i].post.createdAt >= s[1..][j].post.createdAt {
          assert s[1..][i] == s[i + 1] && s[1..][j] == s[j + 1];
        }
      }
      InsertKeepsNewestFirst(x, s[1..]);
      InsertKeepsBound(x, s[1..], s[0].post.createdAt);
      var r := [s[0]] + rest;
      forall i, j | 0 <= i < j < |r| ensures r[i].post.createdAt >= r[j].post.createdAt {
        assert r[j] == rest[j - 1];
        if i > 0 {
          assert r[i] == rest[i - 1];
        }
      }
    }
  }

  /** `sort({ createdAt: -1 })`: the same posts, newest first. */
  function SortNewestFirst(s: seq<PostView>): (r: seq<PostView>)
    ensures NewestFirst(r)
    ensures multiset(r) == multiset(s)
  {
    if s == [] then []
    else
      var rest := SortNewestFirst(s[1..]);
      InsertKeepsNewestFirst(s[0], rest);
      InsertKeepsPosts(s[0], rest);
      assert multiset(s) == multiset(s[1..]) + multiset{s[0]} by {
        assert s == [s[0]] + s[1..];
      }
      Insert(s[0], rest)
  }

  /** A reordering keeps exactly the same posts. */
  lemma SortKeepsPosts(s: seq<PostView>)
    ensures |SortNewestFirst(s)| == |s|
    ensures forall v :: v in SortNewestFirst(s) <==> v in s
  {
    var r := SortNewestFirst(s);
    assert |multiset(r)| == |multiset(s)|;
    forall v ensures v in r <==> v in s {
      assert v in r <==> v in multiset(r);
    }
  }

  /** Inserting a post whose id is new keeps the ids free of repeats. */
  lemma {:induction false} InsertKeepsUniqueIds(x: PostView, s: seq<PostView>)
    requires UniqueIds(s) && forall k :: 0 <= k < |s| ==> s[k].id != x.id
    ensures UniqueIds(Insert(x, s))
  {
    if s == [] {
    } else if s[0].post.createdAt <= x.post.createdAt {
      var r := [x] + s;
      forall i, j | 0 <= i < j < |r| ensures r[i].id != r[j].id {
        assert r[j] == s[j - 1];
        if i > 0 {
          assert r[i] == s[i - 1];
        }
      }
    } else {
      var tail := s[1..];
      assert UniqueIds(tail) by {
        forall i, j | 0 <= i < j < |tail| ensures tail[i].id != tail[j].id {
          assert tail[i] == s[i + 1] && tail[j] == s[j + 1];
        }
      }
      InsertKeepsUniqueIds(x, tail);
      InsertKeepsPosts(x, tail);
      var rest := Insert(x, tail);
      var r := [s[0]] + rest;
      forall i, j | 0 <= i < j < |r| ensures r[i].id != r[j].id {
        assert r[j] == rest[j - 1];
        if i > 0 {
          assert r[i] == rest[i - 1];
        } else {
          var v := rest[j - 1];
          assert v in multiset(rest);
          if v != x {
            assert v in multiset(tail);
            var p :| 0 <= p < |tail| && tail[p] == v;
            assert v == s[p + 1];
          }
        }
      }
    }
  }

  /** Sorting keeps the ids free of repeats. */
  lemma {:induction false} SortKeepsUniqueIds(s: seq<PostView>)
    requires UniqueIds(s)
    ensures UniqueIds(SortNewestFirst(s))
  {
    if s != [] {
      var tail := s[1..];
      assert UniqueIds(tail) by {
        forall i, j | 0 <= i < j < |tail| ensures tail[i].id != tail[j].id {
          assert tail[i] == s[i + 1] && tail[j] == s[j + 1];
        }
      }
      SortKeepsUniqueIds(tail);
      SortKeepsPosts(tail);
      var rest := SortNewestFirst(tail);
      forall k | 0 <= k < |rest| ensures rest[k].id != s[0].id {
        assert rest[k] in tail;
        var p :| 0 <= p < |tail| && tail[p] == rest[k];
        assert rest[k] == s[p + 1];
      }
      InsertKeepsUniqueIds(s[0], rest);
    }
  }

  // ---------------------------------------------------------------------------
  // getPosts
  // ---------------------------------------------------------------------------

  /** The posts a stored caller may view, newest first. */
  function Feed(users: map<UserId, User>, posts: map<PostId, Post>, postIds: seq<PostId>, callerId: UserId)
    : seq<PostView>
    requires callerId in users
  {
    var followingIds := FollowIds(users[callerId].following);
    var mutualIds := MutualIds(followingIds, FollowIds(users[callerId].followers));
    SortNewestFirst(Matching(users, posts, postIds, callerId, followingIds, mutualIds))
  }

  lemma FeedFacts(users: map<UserId, User>, posts: map<PostId, Post>, postIds: seq<PostId>, callerId: UserId)
    requires callerId in users
    ensures var r := Feed(users, posts, postIds, callerId);
      && NewestFirst(r) && |r| <= |postIds|
      && (forall k :: 0 <= k < |r| ==>
           && r[k].id in postIds && r[k].id in posts && r[k].post == posts[r[k].id]
           && Followed(users, callerId, r[k].post.userId)
           && r[k].author == AuthorOf(users, r[k].post.userId))
      && (forall p :: p in postIds && p in posts && Followed(users, callerId, posts[p].userId) ==> Listed(r, p))
      && (NoRepeats(postIds) ==> UniqueIds(r))
  {
    var followingIds := FollowIds(users[callerId].following);
    var mutualIds := MutualIds(followingIds, FollowIds(users[callerId].followers));
    var found := Matching(users, posts, postIds, callerId, followingIds, mutualIds);
    MatchingComplete(users, posts, postIds, callerId, followingIds, mutualIds);
    var sorted := SortNewestFirst(found);
    SortKeepsPosts(found);
    forall k | 0 <= k < |sorted|
      ensures && sorted[k].id in postIds && sorted[k].id in posts && sorted[k].post == posts[sorted[k].id]
              && Followed(users, callerId, sorted[k].post.userId)
              && sorted[k].author == AuthorOf(users, sorted[k].post.userId)
    {
      assert sorted[k] in found;
      var j :| 0 <= j < |found| && found[j] == sorted[k];
    }
    forall p | p in postIds && p in posts && Followed(users, callerId, posts[p].userId)
      ensures Listed(sorted, p)
    {
      var j :| 0 <= j < |found| && found[j].id == p;
      assert found[j] in sorted;
      var k :| 0 <= k < |sorted| && sorted[k] == found[j];
    }
    if NoRepeats(postIds) {
      MatchingUniqueIds(users, posts, postIds, callerId, followingIds, mutualIds);
      SortKeepsUniqueIds(found);
    }
  }

  /**
   * The feed of `callerId`: every stored post whose owner is the caller, or is
   * followed by the caller, or is a mutual follower; newest first.
   */
  function VisiblePosts(users: map<UserId, User>, posts: map<PostId, Post>, postIds: seq<PostId>, callerId: UserId)
    : (r: Reply<seq<PostView>>)
    ensures r.NotFound? <==> callerId !in users
    ensures r.Ok? || r.NotFound?
    ensures r.Ok? ==> NewestFirst(r.value) && |r.value| <= |postIds|
    ensures r.Ok? ==> forall k :: 0 <= k < |r.value| ==>
      && r.value[k].id in postIds && r.value[k].id in posts && r.value[k].post == posts[r.value[k].id]
      && Followed(users, callerId, r.value[k].post.userId)
      && r.value[k].author == AuthorOf(users, r.value[k].post.userId)
    ensures r.Ok? ==> forall p :: p in postIds && p in posts && Followed(users, callerId, posts[p].userId) ==>
      Listed(r.value, p)
    ensures r.Ok? && NoRepeats(postIds) ==> UniqueIds(r.value)
  {
    if callerId !in users then NotFound
    else
      FeedFacts(users, posts, postIds, callerId);
      Ok(Feed(users, posts, postIds, callerId))
  }

  /** The caller always sees every one of their own stored posts. */
  lemma OwnPostsAlwaysVisible(users: map<UserId, User>, posts: map<PostId, Post>, postIds: seq<PostId>,
                              callerId: UserId, p: PostId)
    requires callerId in users && p in postIds && p in posts && posts[p].userId == callerId
    ensures VisiblePosts(users, posts, postIds, callerId).Ok?
    ensures Listed(VisiblePosts(users, posts, postIds, callerId).value, p)
  {
  }

  /** A user who follows the caller without being followed back never appears as a post's owner in the feed. */
  lemma OneWayFollowerHidden(users: map<UserId, User>, posts: map<PostId, Post>, postIds: seq<PostId>,
                             callerId: UserId, owner: UserId)
    requires callerId in users && owner != callerId
    requires owner in FollowIds(users[callerId].followers) && owner !in FollowIds(users[callerId].following)
    ensures forall k :: 0 <= k < |VisiblePosts(users, posts, postIds, callerId).value| ==>
      VisiblePosts(users, posts, postIds, callerId).value[k].post.userId != owner
  {
  }

  /**
   * Once `a` has sent `b` a request and `b` has accepted it, every stored post
   * by `b` is in `a`'s feed.
   */
  lemma AcceptedRequestOpensFeed(users: map<UserId, User>, posts: map<PostId, Post>, postIds: seq<PostId>,
                                 a: UserId, b: UserId, sentAt: Timestamp, acceptedAt: Timestamp, p: PostId)
    requires a in users && b in users && p in postIds && p in posts && posts[p].userId == b
    ensures Listed(VisiblePosts(AcceptRequest(SendRequest(users, a, b, sentAt), b, a, acceptedAt), posts, postIds, a).value, p)
  {
    var after := AcceptRequest(SendRequest(users, a, b, sentAt), b, a, acceptedAt);
    SendThenAccept(users, a, b, sentAt, acceptedAt);
    FollowedEntryListed(after[a].following, Follower(b, acceptedAt));
    assert Followed(after, a, b);
  }

  lemma FollowedEntryListed(fs: seq<Follower>, f: Follower)
    requires f in fs
    ensures f.userId in FollowIds(fs)
  {
    var i :| 0 <= i < |fs| && fs[i] == f;
    assert FollowIds(fs)[i] == f.userId;
  }

  // ---------------------------------------------------------------------------
  // createPost, user side
  // ---------------------------------------------------------------------------

  /** Every user's `postCount` equals the number of ids in its `posts`. */
  ghost predicate PostCountsAgree(users: map<UserId, User>)
  {
    forall u :: u in users ==> users[u].postCount == |users[u].posts|
  }

  /** `user.posts.push(id)` and `user.postCount += 1` on the caller's document. */
  function PostAdded(users: map<UserId, User>, callerId: UserId, postId: PostId): (r: map<UserId, User>)
    requires callerId in users
    ensures r.Keys == users.Keys
    ensures r[callerId] == users[callerId].(posts := users[callerId].posts + [postId],
                                            postCount := users[callerId].postCount + 1)
    ensures forall u :: u in users && u != callerId ==> r[u] == users[u]
  {
    var u := users[callerId];
    users[callerId := u.(posts := u.posts + [postId], postCount := u.postCount + 1)]
  }

  /** Adding a post keeps every post count in step with its post list. */
  lemma PostAddedKeepsPostCounts(users: map<UserId, User>, callerId: UserId, postId: PostId)
    requires PostCountsAgree(users) && callerId in users
    ensures PostCountsAgree(PostAdded(users, callerId, postId))
  {
  }
}
